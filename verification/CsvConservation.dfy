/** Row conservation: every data row ends in exactly one record or one dead-letter record. */
module CsvConservation {
  import opened Wrappers
  import opened Text
  import opened SeriesValidation
  import opened SeriesGaps
  import opened CsvIngestion
  import opened CsvReturns
  import ConsumptionRepository
  import Coalescing

  function Positions(candidates: seq<Candidate>): seq<nat> {
    Map((c: Candidate) => c.position, candidates)
  }

  function IssuePositions(issues: seq<Issue>): seq<nat> {
    Map((issue: Issue) => issue.position, issues)
  }

  function DlqIds(dlq: seq<Dlq>): seq<string> {
    Map((d: Dlq) => d.recordId, dlq)
  }

  function RowIds(source: string, positions: seq<nat>): seq<string> {
    Map((n: nat) => RowId(source, n), positions)
  }

  /** The logical row numbers of `n` data rows; the header is row 1. */
  function RowNumbers(n: nat): seq<nat> {
    seq(n, i requires 0 <= i < n => i + 2)
  }

  ghost predicate Ascending(positions: seq<nat>) {
    forall i, j :: 0 <= i < j < |positions| ==> positions[i] < positions[j]
  }

  /** The candidate is the reading of the data row its position names. */
  ghost predicate ReadFrom(cfg: Config, layout: Layout, data: seq<seq<string>>, c: Candidate)
    requires Columns(layout.index, layout.width)
  {
    && 2 <= c.position < |data| + 2
    && ReadRow(cfg, layout.index, layout.width, data[c.position - 2]) == Accepted(c.record)
  }

  ghost predicate AllReadFrom(cfg: Config, layout: Layout, data: seq<seq<string>>, candidates: seq<Candidate>)
    requires Columns(layout.index, layout.width)
  {
    forall c :: c in candidates ==> ReadFrom(cfg, layout, data, c)
  }

  lemma RowNumbersStep(n: nat)
    ensures RowNumbers(n + 1) == RowNumbers(n) + [n + 2]
  {
  }

  /** What the row loop has made of the data rows: each row number is a candidate's or a refused row's. */
  ghost predicate Accounted(cfg: Config, n: nat, st: State, refused: seq<nat>) {
    && DlqIds(st.dlq) == RowIds(cfg.sourceName, refused)
    && multiset(Positions(st.candidates)) + multiset(refused) == multiset(RowNumbers(n))
    && Ascending(Positions(st.candidates))
    && (forall i :: 0 <= i < |st.candidates| ==> Positions(st.candidates)[i] < n + 2)
  }

  lemma AccountCandidate(cfg: Config, n: nat, st: State, refused: seq<nat>, record: Record)
    requires Accounted(cfg, n, st, refused)
    ensures Accounted(cfg, n + 1, st.(candidates := st.candidates + [Candidate(record, n + 2)]), refused)
  {
    RowNumbersStep(n);
    MapAppend((c: Candidate) => c.position, st.candidates, Candidate(record, n + 2));
    assert Positions(st.candidates + [Candidate(record, n + 2)]) == Positions(st.candidates) + [n + 2];
  }

  lemma AccountRefusal(cfg: Config, n: nat, st: State, refused: seq<nat>, d: Diagnostic)
    requires Accounted(cfg, n, st, refused)
    ensures Accounted(cfg, n + 1, Refuse(cfg, st, n + 2, d), refused + [n + 2])
  {
    RowNumbersStep(n);
    var record := Dlq(RowId(cfg.sourceName, n + 2), [d]);
    assert DlqIds(st.dlq + [record]) == DlqIds(st.dlq) + [record.recordId];
    assert RowIds(cfg.sourceName, refused + [n + 2]) == RowIds(cfg.sourceName, refused) + [RowId(cfg.sourceName, n + 2)];
  }

  /** One data row ends as one more candidate or one more refusal. */
  lemma RowAccounts(cfg: Config, layout: Layout, n: nat, before: State, row: seq<string>, st: State, refused: seq<nat>)
    returns (later: seq<nat>)
    requires Columns(layout.index, layout.width) && Accounted(cfg, n, before, refused)
    requires RowStep(cfg, layout.index, layout.width, before, row, n + 2) == Ok(st)
    ensures Accounted(cfg, n + 1, st, later)
  {
    hide Accounted, ReadRow;
    if |row| != layout.width {
      AccountRefusal(cfg, n, before, refused, RowShapeInvalid);
      later := refused + [n + 2];
    } else {
      match ReadRow(cfg, layout.index, layout.width, row)
      case Accepted(record) =>
        AccountCandidate(cfg, n, before, refused, record);
        later := refused;
      case Rejected =>
        AccountRefusal(cfg, n, before, refused, RowValidationFailed);
        later := refused + [n + 2];
    }
  }

  lemma {:induction false} FoldAccounts(cfg: Config, layout: Layout, data: seq<seq<string>>, st: State)
    returns (refused: seq<nat>)
    requires layout.start.candidates == [] && layout.start.dlq == []
    requires Columns(layout.index, layout.width)
    requires RowsFold(cfg, layout.index, layout.width, layout.start, data) == Ok(st)
    ensures Accounted(cfg, |data|, st, refused)
  {
    if data == [] {
      refused := [];
      assert RowIds(cfg.sourceName, refused) == [];
    } else {
      hide Accounted, RowStep;
      var n := |data| - 1;
      var before := RowsFold(cfg, layout.index, layout.width, layout.start, data[..n]).value;
      refused := FoldAccounts(cfg, layout, data[..n], before);
      refused := RowAccounts(cfg, layout, n, before, data[n], st, refused);
    }
  }

  lemma {:induction false} FoldReads(cfg: Config, layout: Layout, data: seq<seq<string>>, st: State)
    requires layout.start.candidates == []
    requires Columns(layout.index, layout.width)
    requires RowsFold(cfg, layout.index, layout.width, layout.start, data) == Ok(st)
    ensures AllReadFrom(cfg, layout, data, st.candidates)
  {
    if data != [] {
      var n := |data| - 1;
      var before := RowsFold(cfg, layout.index, layout.width, layout.start, data[..n]).value;
      FoldReads(cfg, layout, data[..n], before);
      forall c | c in st.candidates ensures ReadFrom(cfg, layout, data, c) {
        if c in before.candidates {
          assert ReadFrom(cfg, layout, data[..n], c);
        }
      }
    }
  }

  // ---------- series validation keeps the account ----------

  lemma PartitionKeep(kept: seq<Candidate>, issues: seq<Issue>, all: seq<Candidate>, c: Candidate)
    requires multiset(Positions(kept)) + multiset(IssuePositions(issues)) == multiset(Positions(all))
    ensures multiset(Positions(kept + [c])) + multiset(IssuePositions(issues)) == multiset(Positions(all + [c]))
  {
    assert Positions(kept + [c]) == Positions(kept) + [c.position];
    assert Positions(all + [c]) == Positions(all) + [c.position];
  }

  lemma PartitionDrop(kept: seq<Candidate>, issues: seq<Issue>, all: seq<Candidate>, c: Candidate, issue: Issue)
    requires multiset(Positions(kept)) + multiset(IssuePositions(issues)) == multiset(Positions(all))
    requires issue.position == c.position
    ensures multiset(Positions(kept)) + multiset(IssuePositions(issues + [issue])) == multiset(Positions(all + [c]))
  {
    assert IssuePositions(issues + [issue]) == IssuePositions(issues) + [c.position];
    assert Positions(all + [c]) == Positions(all) + [c.position];
  }

  lemma NothingPartitions()
    ensures Positions([]) == [] && IssuePositions([]) == []
  {
  }

  lemma {:induction false} ValidationPartitions(candidates: seq<Candidate>, grid: Option<Grid>, n: nat)
    requires n <= |candidates|
    ensures multiset(Positions(Survivors(candidates, grid, n))) + multiset(IssuePositions(Issues(candidates, grid, n)))
         == multiset(Positions(candidates[..n]))
  {
    hide Positions, IssuePositions, IsDuplicate;
    if n == 0 {
      NothingPartitions();
    } else {
      ValidationPartitions(candidates, grid, n - 1);
      var c, kept, issues := candidates[n - 1], Survivors(candidates, grid, n - 1), Issues(candidates, grid, n - 1);
      assert candidates[..n] == candidates[..n - 1] + [c];
      if Survives(candidates, grid, n - 1) {
        PartitionKeep(kept, issues, candidates[..n - 1], c);
      } else {
        var issue := Issue(c.position, if IsDuplicate(candidates, n - 1) then DuplicateTimestamp else IntervalMisaligned);
        assert Survivors(candidates, grid, n) == kept && Issues(candidates, grid, n) == issues + [issue];
        PartitionDrop(kept, issues, candidates[..n - 1], c, issue);
      }
    }
  }

  /** Survivors keep the order and the candidates they come from. */
  lemma {:induction false} SurvivorsAscend(candidates: seq<Candidate>, grid: Option<Grid>, n: nat)
    requires n <= |candidates| && Ascending(Positions(candidates))
    ensures forall c :: c in Survivors(candidates, grid, n) ==> c in candidates
    ensures forall i :: 0 <= i < |Survivors(candidates, grid, n)| ==>
              n > 0 && Survivors(candidates, grid, n)[i].position <= candidates[n - 1].position
    ensures Ascending(Positions(Survivors(candidates, grid, n)))
  {
    if n > 0 {
      SurvivorsAscend(candidates, grid, n - 1);
      assert n > 1 ==> Positions(candidates)[n - 2] < Positions(candidates)[n - 1];
    }
  }

  // ---------- ids ----------

  lemma RowIdInjective(source: string, a: nat, b: nat)
    requires RowId(source, a) == RowId(source, b)
    ensures a == b
  {
    assert RowId(source, a)[|source + ":row:"|..] == Decimal(a);
    assert RowId(source, b)[|source + ":row:"|..] == Decimal(b);
    DecimalInjective(a, b);
  }

  lemma RowIdIsNoSourceId(source: string, n: nat)
    ensures RowId(source, n) != SourceId(source)
  {
    assert RowId(source, n)[|source| + 1] == 'r';
    assert SourceId(source)[|source| + 1] == 's';
  }

  /** The ids of all dead-letter records of an accepted file. */
  function ExpectedIds(source: string, refused: seq<nat>, ending: Ending, issues: seq<nat>): seq<string> {
    RowIds(source, refused) + (if ending == EndOfInput then [] else [SourceId(source)]) + RowIds(source, issues)
  }

  lemma ExpectedIdsDistinct(source: string, refused: seq<nat>, ending: Ending, issues: seq<nat>)
    requires Distinct(refused + issues)
    ensures Distinct(ExpectedIds(source, refused, ending, issues))
  {
    var ids := ExpectedIds(source, refused, ending, issues);
    var all := refused + issues;
    var gap := if ending == EndOfInput then 0 else 1;
    forall i, j | 0 <= i < j < |ids| ensures ids[i] != ids[j] {
      var a := if i < |refused| then i else i - gap;
      var b := if j < |refused| then j else j - gap;
      if gap == 1 && i == |refused| {
        RowIdIsNoSourceId(source, all[b]);
      } else if gap == 1 && j == |refused| {
        RowIdIsNoSourceId(source, all[a]);
      } else {
        assert ids[i] == RowId(source, all[a]) && ids[j] == RowId(source, all[b]);
        if ids[i] == ids[j] {
          RowIdInjective(source, all[a], all[b]);
        }
      }
    }
  }

  lemma PartDistinct(a: seq<nat>, b: seq<nat>, c: seq<nat>, n: nat)
    requires multiset(a) + multiset(b) + multiset(c) == multiset(RowNumbers(n))
    ensures Distinct(b + c)
  {
    DistinctBag(RowNumbers(n));
    DistinctBag(b + c);
    assert multiset(b + c) == multiset(b) + multiset(c);
    forall x | x in b + c ensures multiset(b + c)[x] == 1 {
      assert x in multiset(b + c);
      assert x in multiset(RowNumbers(n));
      assert x in RowNumbers(n);
    }
  }

  // ---------- main results ----------

  /** What series validation leaves of candidates that account for `n` rows. */
  lemma ValidationAccounts(cfg: Config, n: nat, st: State, refused: seq<nat>, grid: Option<Grid>)
    requires Accounted(cfg, n, st, refused)
    ensures var series := Validated(st.candidates, grid);
            && multiset(Positions(series.valid)) + multiset(refused) + multiset(IssuePositions(series.issues))
               == multiset(RowNumbers(n))
            && Ascending(Positions(series.valid))
            && forall c :: c in series.valid ==> c in st.candidates
  {
    ValidationPartitions(st.candidates, grid, |st.candidates|);
    assert st.candidates[..|st.candidates|] == st.candidates;
    SurvivorsAscend(st.candidates, grid, |st.candidates|);
  }

  /** `kept[i]` is the data row that became record `i`. */
  ghost predicate RecordsReadFrom(cfg: Config, layout: Layout, data: seq<seq<string>>, records: seq<Record>, kept: seq<nat>)
    requires Columns(layout.index, layout.width)
  {
    && |kept| == |records| && Ascending(kept)
    && forall i :: 0 <= i < |kept| ==> ReadFrom(cfg, layout, data, Candidate(records[i], kept[i]))
  }

  lemma SurvivorsReadFrom(cfg: Config, layout: Layout, data: seq<seq<string>>, candidates: seq<Candidate>, valid: seq<Candidate>)
    requires Columns(layout.index, layout.width) && AllReadFrom(cfg, layout, data, candidates)
    requires Ascending(Positions(valid)) && forall c :: c in valid ==> c in candidates
    ensures RecordsReadFrom(cfg, layout, data, Map((c: Candidate) => c.record, valid), Positions(valid))
  {
    forall i | 0 <= i < |valid|
      ensures ReadFrom(cfg, layout, data, Candidate(valid[i].record, valid[i].position))
    {
      assert valid[i] in candidates;
    }
  }

  /**
   * Under an accepted header, and unless a row escapes, the ingestion returns and every non-blank data row
   * is accounted for exactly once. `kept` are the rows that became records, in source order; the others
   * have a dead-letter record each: `refused` by the row loop, or `invalid` to series validation.
   */
  lemma RowConservation(cfg: Config, rows: seq<seq<string>>, ending: Ending, layout: Layout)
    returns (result: Ingested, kept: seq<nat>, refused: seq<nat>, invalid: seq<nat>)
    requires ValidConfig(cfg) && AcceptedFile(cfg, rows, layout)
    requires forall row :: row in DataRows(rows) ==> !Escapes(cfg, layout, row)
    ensures Ingest(cfg, rows, ending) == Ok(result)
    ensures multiset(kept) + multiset(refused) + multiset(invalid) == multiset(RowNumbers(|DataRows(rows)|))
    ensures DlqIds(result.dlq) == ExpectedIds(cfg.sourceName, refused, ending, invalid)
    ensures Columns(layout.index, layout.width)
    ensures RecordsReadFrom(cfg, layout, DataRows(rows), result.records, kept)
  {
    AcceptedReturns(cfg, rows, ending, layout);
    hide *;
    result := Ingest(cfg, rows, ending).value;
    kept, refused, invalid := ReturnedConservation(cfg, rows, ending, layout, result);
  }

  lemma ReturnedConservation(cfg: Config, rows: seq<seq<string>>, ending: Ending, layout: Layout, result: Ingested)
    returns (kept: seq<nat>, refused: seq<nat>, invalid: seq<nat>)
    requires AcceptedFile(cfg, rows, layout) && Ingest(cfg, rows, ending) == Ok(result)
    ensures multiset(kept) + multiset(refused) + multiset(invalid) == multiset(RowNumbers(|DataRows(rows)|))
    ensures DlqIds(result.dlq) == ExpectedIds(cfg.sourceName, refused, ending, invalid)
    ensures Columns(layout.index, layout.width)
    ensures RecordsReadFrom(cfg, layout, DataRows(rows), result.records, kept)
  {
    var st := IngestIsFold(cfg, rows, ending, layout, result);
    kept, refused, invalid := FoldConservation(cfg, layout, DataRows(rows), ending, st);
  }

  lemma FoldConservation(cfg: Config, layout: Layout, data: seq<seq<string>>, ending: Ending, st: State)
    returns (kept: seq<nat>, refused: seq<nat>, invalid: seq<nat>)
    requires Columns(layout.index, layout.width) && layout.start.candidates == [] && layout.start.dlq == []
    requires RowsFold(cfg, layout.index, layout.width, layout.start, data) == Ok(st)
    ensures multiset(kept) + multiset(refused) + multiset(invalid) == multiset(RowNumbers(|data|))
    ensures DlqIds(WithSeriesValidation(cfg, AfterEnding(cfg, st, ending)).dlq)
         == ExpectedIds(cfg.sourceName, refused, ending, invalid)
    ensures RecordsReadFrom(cfg, layout, data, WithSeriesValidation(cfg, AfterEnding(cfg, st, ending)).records, kept)
  {
    refused := FoldAccounts(cfg, layout, data, st);
    FoldReads(cfg, layout, data, st);
    ValidationAccounts(cfg, |data|, st, refused, cfg.grid);
    var series := Validated(st.candidates, cfg.grid);
    kept, invalid := Positions(series.valid), IssuePositions(series.issues);
    ResultIds(cfg, st, ending, refused);
    SurvivorsReadFrom(cfg, layout, data, st.candidates, series.valid);
  }

  lemma ResultIds(cfg: Config, st: State, ending: Ending, refused: seq<nat>)
    requires DlqIds(st.dlq) == RowIds(cfg.sourceName, refused)
    ensures DlqIds(WithSeriesValidation(cfg, AfterEnding(cfg, st, ending)).dlq)
         == ExpectedIds(cfg.sourceName, refused, ending, IssuePositions(Validated(st.candidates, cfg.grid).issues))
  {
    var issues := Validated(st.candidates, cfg.grid).issues;
    hide Validated;
    assert DlqIds(IssueDlq(cfg, issues)) == RowIds(cfg.sourceName, IssuePositions(issues));
  }

  lemma NoRowsIds(cfg: Config, ending: Ending)
    ensures Distinct(DlqIds(WithSeriesValidation(cfg, AfterEnding(cfg, EMPTY, ending)).dlq))
  {
    ResultIds(cfg, EMPTY, ending, []);
    ExpectedIdsDistinct(cfg.sourceName, [], ending, []);
  }

  /** Unless a row escapes, the ingestion returns and all its dead-letter records have different ids. */
  lemma DlqIdsDistinct(cfg: Config, rows: seq<seq<string>>, ending: Ending)
    requires ValidConfig(cfg) && !SomeRowEscapes(cfg, rows)
    ensures Ingest(cfg, rows, ending).Ok? && Distinct(DlqIds(Ingest(cfg, rows, ending).value.dlq))
  {
    IngestReturns(cfg, rows, ending);
    hide *;
    ReturnedIdsDistinct(cfg, rows, ending, Ingest(cfg, rows, ending).value);
  }

  lemma ReturnedIdsDistinct(cfg: Config, rows: seq<seq<string>>, ending: Ending, result: Ingested)
    requires Ingest(cfg, rows, ending) == Ok(result)
    ensures Distinct(DlqIds(result.dlq))
  {
    if NonBlank(rows) == [] {
      NoRowsIds(cfg, ending);
    } else if LayoutOf(cfg, NonBlank(rows)[0]).Ok? {
      AcceptedIdsDistinct(cfg, rows, ending, LayoutOf(cfg, NonBlank(rows)[0]).value, result);
    }
  }

  lemma AcceptedIdsDistinct(cfg: Config, rows: seq<seq<string>>, ending: Ending, layout: Layout, result: Ingested)
    requires AcceptedFile(cfg, rows, layout) && Ingest(cfg, rows, ending) == Ok(result)
    ensures Distinct(DlqIds(result.dlq))
  {
    var kept, refused, invalid := ReturnedConservation(cfg, rows, ending, layout, result);
    PartDistinct(kept, refused, invalid, |DataRows(rows)|);
    ExpectedIdsDistinct(cfg.sourceName, refused, ending, invalid);
  }

  /**
   * Unless a row escapes, the ingestion returns and its records have pairwise distinct keys, so the
   * repository stores them as they are and finds no conflict among them.
   */
  lemma RecordsNeverConflict(cfg: Config, rows: seq<seq<string>>, ending: Ending)
    requires ValidConfig(cfg) && !SomeRowEscapes(cfg, rows)
    ensures Ingest(cfg, rows, ending).Ok?
    ensures var records := Ingest(cfg, rows, ending).value.records;
            && Coalescing.DistinctKeys(KeyOf, records)
            && ConsumptionRepository.Normalize(records) == Ok(records)
            && ConsumptionRepository.Save(map[], records).result == Ok(())
  {
    IngestReturns(cfg, rows, ending);
    hide *;
    ReturnedRecordsAgree(cfg, rows, ending, Ingest(cfg, rows, ending).value);
  }

  lemma ReturnedRecordsAgree(cfg: Config, rows: seq<seq<string>>, ending: Ending, result: Ingested)
    requires Ingest(cfg, rows, ending) == Ok(result)
    ensures Coalescing.DistinctKeys(KeyOf, result.records)
    ensures ConsumptionRepository.Normalize(result.records) == Ok(result.records)
    ensures ConsumptionRepository.Save(map[], result.records).result == Ok(())
  {
    ResultKeys(cfg, rows, ending, result);
    ConsumptionRepository.NormalizeIdentity(result.records);
    ConsumptionRepository.SaveMeaning(map[], result.records);
    forall a, b | a in result.records && b in result.records && KeyOf(a) == KeyOf(b) ensures a == b {
      var i :| 0 <= i < |result.records| && result.records[i] == a;
      var j :| 0 <= j < |result.records| && result.records[j] == b;
      assert !(i < j) && !(j < i);
    }
  }

  lemma ResultKeys(cfg: Config, rows: seq<seq<string>>, ending: Ending, result: Ingested)
    requires Ingest(cfg, rows, ending) == Ok(result)
    ensures Coalescing.DistinctKeys(KeyOf, result.records)
  {
    var lines := NonBlank(rows);
    if lines == [] {
      SeriesKeys(cfg, AfterEnding(cfg, EMPTY, ending));
    } else if LayoutOf(cfg, lines[0]).Ok? {
      var layout := LayoutOf(cfg, lines[0]).value;
      var st := RowsFold(cfg, layout.index, layout.width, layout.start, lines[1..]).value;
      SeriesKeys(cfg, AfterEnding(cfg, st, ending));
    }
  }

  lemma SeriesKeys(cfg: Config, st: State)
    ensures Coalescing.DistinctKeys(KeyOf, WithSeriesValidation(cfg, st).records)
  {
    SurvivorsDistinct(st.candidates, cfg.grid, |st.candidates|);
  }

  /** A refused header yields no records and one dead-letter record, for the schema. */
  lemma RefusedHeader(cfg: Config, rows: seq<seq<string>>, ending: Ending)
    requires NonBlank(rows) != [] && !HeaderAccepted(cfg, NonBlank(rows)[0])
    ensures Ingest(cfg, rows, ending).Ok?
    ensures Ingest(cfg, rows, ending).value.records == []
    ensures DlqIds(Ingest(cfg, rows, ending).value.dlq) == [SchemaId(cfg.sourceName)]
  {
  }
}
