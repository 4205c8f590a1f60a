/** The consumption CSV adapter: header, rows, series validation, and the dead-letter record of everything refused. */
module CsvIngestion {
  import opened Wrappers
  import opened Text
  import opened SeriesValidation
  import opened ConsumptionMapping
  import SchemaResolver
  import HeaderResolution

  /** How reading the file ended, after the rows that could be read. */
  datatype Ending = EndOfInput | DecodeFailed | ParseFailed

  /**
   * What converting the three cells of a row came to. `Escaped` is an exception the row handler does
   * not catch, such as an instant outside the calendar range.
   */
  datatype Reading = Accepted(record: Record) | Rejected | Escaped

  datatype Config = Config(
    sourceName: string, resolver: SchemaResolver.Resolver, unit: PowerUnit, grid: Option<Grid>,
    read: (string, string, string) -> Reading)

  ghost predicate ValidConfig(cfg: Config) {
    SchemaResolver.ValidResolver(cfg.resolver) && ValidProfile(cfg.resolver.specs)
  }

  datatype Diagnostic =
    | SchemaDiagnostic(finding: Finding)
    | RowShapeInvalid
    | RowValidationFailed
    | SourceDecodeFailed
    | SourceParseFailed
    | SeriesDiagnostic(code: IssueCode)
    | MissingIntervalGap(missingCount: int)

  /** A dead-letter record: its id and the diagnostics it carries. */
  datatype Dlq = Dlq(recordId: string, diagnostics: seq<Diagnostic>)

  datatype Ingested = Ingested(records: seq<Record>, diagnostics: seq<Diagnostic>, dlq: seq<Dlq>)

  datatype Uncaught = Uncaught

  function RowId(source: string, position: nat): string {
    source + ":row:" + Decimal(position)
  }

  function SourceId(source: string): string {
    source + ":source"
  }

  function SchemaId(source: string): string {
    source + ":schema"
  }

  predicate IsBlank(row: seq<string>) {
    forall cell :: cell in row ==> Strip(cell) == ""
  }

  function NonBlank(rows: seq<seq<string>>): seq<seq<string>> {
    if rows == [] then []
    else NonBlank(rows[..|rows| - 1]) + if IsBlank(rows[|rows| - 1]) then [] else [rows[|rows| - 1]]
  }

  // ---------- rows ----------

  /** The three lists a row may add to. */
  datatype State = State(candidates: seq<Candidate>, diagnostics: seq<Diagnostic>, dlq: seq<Dlq>)

  /** The columns the row loop reads: the three fields, all within the header. */
  predicate Columns(index: map<string, nat>, width: nat) {
    forall n :: n in {CONSUMER_ID, TIMESTAMP, VALUE_MW} ==> n in index && index[n] < width
  }

  function ReadRow(cfg: Config, index: map<string, nat>, width: nat, row: seq<string>): Reading
    requires Columns(index, width)
  {
    if |row| != width then Rejected
    else cfg.read(row[index[CONSUMER_ID]], row[index[TIMESTAMP]], row[index[VALUE_MW]])
  }

  function Refuse(cfg: Config, st: State, position: nat, d: Diagnostic): State {
    st.(diagnostics := st.diagnostics + [d], dlq := st.dlq + [Dlq(RowId(cfg.sourceName, position), [d])])
  }

  function RowStep(cfg: Config, index: map<string, nat>, width: nat, st: State, row: seq<string>, position: nat)
    : Result<State, Uncaught>
    requires Columns(index, width)
  {
    if |row| != width then Ok(Refuse(cfg, st, position, RowShapeInvalid))
    else
      match ReadRow(cfg, index, width, row)
      case Accepted(record) => Ok(st.(candidates := st.candidates + [Candidate(record, position)]))
      case Rejected => Ok(Refuse(cfg, st, position, RowValidationFailed))
      case Escaped => Err(Uncaught)
  }

  /** The lists after the data rows; the first data row is logical row 2. */
  function RowsFold(cfg: Config, index: map<string, nat>, width: nat, st: State, data: seq<seq<string>>)
    : Result<State, Uncaught>
    requires Columns(index, width)
  {
    if data == [] then Ok(st)
    else
      var before :- RowsFold(cfg, index, width, st, data[..|data| - 1]);
      RowStep(cfg, index, width, before, data[|data| - 1], |data| + 1)
  }

  // ---------- the whole file ----------

  function EndingDiagnostic(ending: Ending): Option<Diagnostic> {
    match ending
    case EndOfInput => None
    case DecodeFailed => Some(SourceDecodeFailed)
    case ParseFailed => Some(SourceParseFailed)
  }

  function AfterEnding(cfg: Config, st: State, ending: Ending): State {
    match EndingDiagnostic(ending)
    case None => st
    case Some(d) => st.(diagnostics := st.diagnostics + [d], dlq := st.dlq + [Dlq(SourceId(cfg.sourceName), [d])])
  }

  function IssueDlq(cfg: Config, issues: seq<Issue>): seq<Dlq> {
    Map((issue: Issue) => Dlq(RowId(cfg.sourceName, issue.position), [SeriesDiagnostic(issue.code)]), issues)
  }

  function IssueDiagnostics(issues: seq<Issue>): seq<Diagnostic> {
    Map((issue: Issue) => SeriesDiagnostic(issue.code), issues)
  }

  function GapDiagnostics(gaps: seq<Gap>): seq<Diagnostic> {
    Map((gap: Gap) => MissingIntervalGap(gap.missingCount), gaps)
  }

  function WithSeriesValidation(cfg: Config, st: State): Ingested {
    var series := Validated(st.candidates, cfg.grid);
    Ingested(Map((c: Candidate) => c.record, series.valid),
             st.diagnostics + IssueDiagnostics(series.issues) + GapDiagnostics(series.gaps),
             st.dlq + IssueDlq(cfg, series.issues))
  }

  /** The header's schema after unit safety. */
  function HeaderSchema(cfg: Config, header: seq<string>): HeaderResolution.Schema {
    var resolutions := HeaderResolution.ResolveAll(cfg.resolver, header);
    SafeSchema(HeaderResolution.Schema(resolutions, [], []), cfg.unit)
  }

  predicate HeaderAccepted(cfg: Config, header: seq<string>) {
    FatalFindings(HeaderSchema(cfg, header)) == []
  }

  function Report(findings: seq<Finding>): seq<Diagnostic> {
    Map(f => SchemaDiagnostic(f), findings)
  }

  const EMPTY := State([], [], [])

  /** What an accepted header fixes: the columns, the width, and the lists the rows start from. */
  datatype Layout = Layout(index: map<string, nat>, width: nat, start: State)

  /** The layout of a header, or the whole result when the header is refused. */
  function LayoutOf(cfg: Config, header: seq<string>): Result<Layout, Ingested> {
    var schema := HeaderSchema(cfg, header);
    if HeaderAccepted(cfg, header) then
      Ok(Layout(ColumnIndex(schema.resolutions), |header|, State([], Report(SchemaFindings(schema)), [])))
    else
      Err(Ingested([], Report(SchemaFindings(schema)), [Dlq(SchemaId(cfg.sourceName), Report(FatalFindings(schema)))]))
  }

  function IngestData(cfg: Config, layout: Layout, data: seq<seq<string>>, ending: Ending): Result<Ingested, Uncaught> {
    if !Columns(layout.index, layout.width) then Err(Uncaught)
    else
      var st :- RowsFold(cfg, layout.index, layout.width, layout.start, data);
      Ok(WithSeriesValidation(cfg, AfterEnding(cfg, st, ending)))
  }

  /** What the adapter returns for the rows it could read and the way reading ended. */
  function Ingest(cfg: Config, rows: seq<seq<string>>, ending: Ending): Result<Ingested, Uncaught> {
    var lines := NonBlank(rows);
    if lines == [] then Ok(WithSeriesValidation(cfg, AfterEnding(cfg, EMPTY, ending)))
    else
      match LayoutOf(cfg, lines[0])
      case Err(refused) => Ok(refused)
      case Ok(layout) => IngestData(cfg, layout, lines[1..], ending)
  }

  /** An accepted header always gives the row loop its three columns: no row lookup can fail. */
  lemma AcceptedHeaderHasColumns(cfg: Config, header: seq<string>)
    requires ValidConfig(cfg) && HeaderAccepted(cfg, header)
    ensures Columns(ColumnIndex(HeaderSchema(cfg, header).resolutions), |header|)
  {
    var schema := HeaderResolution.Schema(HeaderResolution.ResolveAll(cfg.resolver, header), [], []);
    AcceptedSchemaSound(cfg.resolver, header, schema, cfg.unit);
  }

  /** The lists that the row loop appends to in place. */
  class Buffers {
    var candidates: seq<Candidate>
    var diagnostics: seq<Diagnostic>
    var dlq: seq<Dlq>

    constructor ()
      ensures Lists() == EMPTY
    {
      candidates, diagnostics, dlq := [], [], [];
    }

    function Lists(): State
      reads this
    {
      State(candidates, diagnostics, dlq)
    }

    /** One step of the row loop: the lists stay the fold over the data lines, unless the row escapes. */
    method NextRow(cfg: Config, layout: Layout, ghost data: seq<seq<string>>, row: seq<string>, position: nat)
      returns (escaped: bool)
      requires RowState(cfg, layout, data, Lists()) && position == |data| + 2
      modifies this
      ensures escaped ==> RowsFold(cfg, layout.index, layout.width, layout.start, data + [row]).Err?
      ensures !escaped ==> RowState(cfg, layout, data + [row], Lists())
    {
      FoldAppend(cfg, layout.index, layout.width, layout.start, data, row);
      escaped := IngestDataRow(cfg, row, position, layout.width, layout.index);
    }

    /** One dead-letter record and diagnostic for each refused candidate. */
    method RefuseIssues(cfg: Config, issues: seq<Issue>)
      modifies this
      ensures candidates == old(candidates)
      ensures diagnostics == old(diagnostics) + IssueDiagnostics(issues)
      ensures dlq == old(dlq) + IssueDlq(cfg, issues)
    {
      for i := 0 to |issues|
        invariant candidates == old(candidates)
        invariant diagnostics == old(diagnostics) + IssueDiagnostics(issues[..i])
        invariant dlq == old(dlq) + IssueDlq(cfg, issues[..i])
      {
        assert issues[..i + 1] == issues[..i] + [issues[i]];
        diagnostics := diagnostics + [SeriesDiagnostic(issues[i].code)];
        dlq := dlq + [Dlq(RowId(cfg.sourceName, issues[i].position), [SeriesDiagnostic(issues[i].code)])];
      }
      assert issues[..|issues|] == issues;
    }

    method ReportGaps(gaps: seq<Gap>)
      modifies this
      ensures candidates == old(candidates) && dlq == old(dlq)
      ensures diagnostics == old(diagnostics) + GapDiagnostics(gaps)
    {
      for i := 0 to |gaps|
        invariant candidates == old(candidates) && dlq == old(dlq)
        invariant diagnostics == old(diagnostics) + GapDiagnostics(gaps[..i])
      {
        assert gaps[..i + 1] == gaps[..i] + [gaps[i]];
        diagnostics := diagnostics + [MissingIntervalGap(gaps[i].missingCount)];
      }
      assert gaps[..|gaps|] == gaps;
    }

    /** One data row: a candidate, or a diagnostic with its dead-letter record. */
    method IngestDataRow(cfg: Config, row: seq<string>, position: nat, width: nat, index: map<string, nat>)
      returns (escaped: bool)
      requires Columns(index, width)
      modifies this
      ensures escaped <==> RowStep(cfg, index, width, old(Lists()), row, position).Err?
      ensures !escaped ==>
                RowStep(cfg, index, width, old(Lists()), row, position)
                == Ok(Lists())
    {
      escaped := false;
      if |row| != width {
        diagnostics := diagnostics + [RowShapeInvalid];
        dlq := dlq + [Dlq(RowId(cfg.sourceName, position), [RowShapeInvalid])];
        return;
      }
      match cfg.read(row[index[CONSUMER_ID]], row[index[TIMESTAMP]], row[index[VALUE_MW]])
      case Accepted(record) =>
        candidates := candidates + [Candidate(record, position)];
      case Rejected =>
        diagnostics := diagnostics + [RowValidationFailed];
        dlq := dlq + [Dlq(RowId(cfg.sourceName, position), [RowValidationFailed])];
      case Escaped =>
        escaped := true;
    }
  }

  lemma {:induction false} FoldStops(cfg: Config, index: map<string, nat>, width: nat, st: State, data: seq<seq<string>>, n: nat)
    requires Columns(index, width) && n <= |data| && RowsFold(cfg, index, width, st, data[..n]).Err?
    ensures RowsFold(cfg, index, width, st, data).Err?
  {
    if n < |data| {
      assert data[..|data| - 1][..n] == data[..n];
      FoldStops(cfg, index, width, st, data[..|data| - 1], n);
    } else {
      assert data[..n] == data;
    }
  }

  lemma {:induction false} NonBlankPrefix(rows: seq<seq<string>>, i: nat)
    requires i <= |rows|
    ensures NonBlank(rows[..i]) <= NonBlank(rows)
  {
    if i < |rows| {
      assert rows[..|rows| - 1][..i] == rows[..i];
      NonBlankPrefix(rows[..|rows| - 1], i);
    } else {
      assert rows[..i] == rows;
    }
  }

  lemma FoldAppend(cfg: Config, index: map<string, nat>, width: nat, st: State, data: seq<seq<string>>, row: seq<string>)
    requires Columns(index, width)
    ensures RowsFold(cfg, index, width, st, data + [row])
         == match RowsFold(cfg, index, width, st, data)
            case Ok(before) => RowStep(cfg, index, width, before, row, |data| + 2)
            case Err(e) => Err(e)
  {
    assert (data + [row])[..|data|] == data;
  }

  /** The lists after the data lines, given the columns, the width and the lists after the header. */
  ghost predicate RowState(cfg: Config, layout: Layout, data: seq<seq<string>>, st: State) {
    Columns(layout.index, layout.width) && RowsFold(cfg, layout.index, layout.width, layout.start, data) == Ok(st)
  }

  /** Resolve the header; a fatal finding refuses the file. */
  method ReadHeader(cfg: Config, header: seq<string>) returns (r: Result<Layout, Ingested>)
    requires ValidConfig(cfg)
    ensures r == LayoutOf(cfg, header)
    ensures r.Ok? ==> Columns(r.value.index, r.value.width)
  {
    var resolved := HeaderResolution.ResolveSchema(cfg.resolver, header);
    var schema := ApplyUnitSafety(resolved, cfg.unit);
    var diagnostics := Report(SchemaFindings(schema));
    var fatal := FatalFindings(schema);
    if fatal != [] {
      return Err(Ingested([], diagnostics, [Dlq(SchemaId(cfg.sourceName), Report(fatal))]));
    }
    AcceptedHeaderHasColumns(cfg, header);
    var index := CanonicalColumnIndex(schema);
    r := Ok(Layout(index, |header|, State([], diagnostics, [])));
  }

  /** How far the row loop has come: no line yet, or an accepted header and the fold over the data lines. */
  ghost predicate Progress(cfg: Config, lines: seq<seq<string>>, header: Option<Layout>, st: State) {
    match header
    case None => lines == [] && st == EMPTY
    case Some(layout) =>
      lines != [] && LayoutOf(cfg, lines[0]) == Ok(layout) && RowState(cfg, layout, lines[1..], st)
  }

  /** How the row loop ended. */
  datatype Scan = Complete | Refused(result: Ingested) | Escaping

  ghost predicate ScanMeans(cfg: Config, lines: seq<seq<string>>, scan: Scan, header: Option<Layout>, st: State) {
    match scan
    case Complete => Progress(cfg, lines, header, st)
    case Refused(result) => lines != [] && LayoutOf(cfg, lines[0]) == Err(result)
    case Escaping =>
      && header.Some? && lines != [] && LayoutOf(cfg, lines[0]) == Ok(header.value)
      && Columns(header.value.index, header.value.width)
      && RowsFold(cfg, header.value.index, header.value.width, header.value.start, lines[1..]).Err?
  }

  /** A refused header or an escaping row decides the result whatever lines follow. */
  lemma ScanLifts(cfg: Config, lines: seq<seq<string>>, all: seq<seq<string>>, scan: Scan, header: Option<Layout>, st: State)
    requires ScanMeans(cfg, lines, scan, header, st) && scan != Complete && lines <= all
    ensures ScanMeans(cfg, all, scan, header, st)
  {
    if scan == Escaping {
      assert all[1..][..|lines| - 1] == lines[1..];
      FoldStops(cfg, header.value.index, header.value.width, header.value.start, all[1..], |lines| - 1);
    }
  }

  lemma HeaderLine(cfg: Config, row: seq<string>, layout: Layout)
    requires LayoutOf(cfg, row) == Ok(layout) && Columns(layout.index, layout.width)
    ensures Progress(cfg, [row], Some(layout), layout.start)
  {
    assert [row][1..] == [];
  }

  lemma DataLine(cfg: Config, lines: seq<seq<string>>, layout: Layout, before: State, row: seq<string>, after: State)
    requires Progress(cfg, lines, Some(layout), before) && RowState(cfg, layout, lines[1..] + [row], after)
    ensures Progress(cfg, lines + [row], Some(layout), after)
  {
    hide LayoutOf, RowsFold, Columns;
    assert (lines + [row])[1..] == lines[1..] + [row];
  }

  lemma EscapingLine(cfg: Config, lines: seq<seq<string>>, layout: Layout, before: State, row: seq<string>, after: State)
    requires Progress(cfg, lines, Some(layout), before) && Columns(layout.index, layout.width)
    requires RowsFold(cfg, layout.index, layout.width, layout.start, lines[1..] + [row]).Err?
    ensures ScanMeans(cfg, lines + [row], Escaping, Some(layout), after)
  {
    hide LayoutOf, RowsFold, Columns;
    assert (lines + [row])[1..] == lines[1..] + [row];
  }

  /** The first non-blank line is the header. */
  method TakeHeader(cfg: Config, row: seq<string>, buffers: Buffers) returns (scan: Scan, header: Option<Layout>)
    requires ValidConfig(cfg) && buffers.Lists() == EMPTY
    modifies buffers
    ensures scan != Escaping && ScanMeans(cfg, [row], scan, header, buffers.Lists())
  {
    var layout := ReadHeader(cfg, row);
    if layout.Err? {
      return Refused(layout.error), None;
    }
    buffers.diagnostics := layout.value.start.diagnostics;
    HeaderLine(cfg, row, layout.value);
    scan, header := Complete, Some(layout.value);
  }

  /** Every later one is a data row. */
  method TakeData(cfg: Config, ghost lines: seq<seq<string>>, row: seq<string>, position: nat, layout: Layout,
                  buffers: Buffers) returns (scan: Scan)
    requires Progress(cfg, lines, Some(layout), buffers.Lists()) && position == |lines| + 1
    modifies buffers
    ensures ScanMeans(cfg, lines + [row], scan, Some(layout), buffers.Lists())
  {
    ghost var before := buffers.Lists();
    var escaped := buffers.NextRow(cfg, layout, lines[1..], row, position);
    if escaped {
      EscapingLine(cfg, lines, layout, before, row, buffers.Lists());
      return Escaping;
    }
    DataLine(cfg, lines, layout, before, row, buffers.Lists());
    scan := Complete;
  }

  lemma NonBlankStep(rows: seq<seq<string>>, i: nat)
    requires i < |rows|
    ensures NonBlank(rows[..i + 1]) == if IsBlank(rows[i]) then NonBlank(rows[..i]) else NonBlank(rows[..i]) + [rows[i]]
    ensures NonBlank(rows[..i + 1]) <= NonBlank(rows)
  {
    assert rows[..i + 1][..i] == rows[..i];
    NonBlankPrefix(rows, i + 1);
  }

  /** One non-blank line: the header if there is none yet, a data row otherwise. */
  method TakeLine(cfg: Config, ghost lines: seq<seq<string>>, row: seq<string>, position: nat, known: Option<Layout>,
                  buffers: Buffers) returns (scan: Scan, header: Option<Layout>)
    requires ValidConfig(cfg) && Progress(cfg, lines, known, buffers.Lists()) && position == |lines| + 1
    modifies buffers
    ensures ScanMeans(cfg, lines + [row], scan, header, buffers.Lists())
  {
    if known == None {
      scan, header := TakeHeader(cfg, row, buffers);
      assert lines + [row] == [row];
    } else {
      header := known;
      scan := TakeData(cfg, lines, row, position, known.value, buffers);
    }
  }

  method ScanRows(cfg: Config, rows: seq<seq<string>>, buffers: Buffers) returns (scan: Scan, header: Option<Layout>)
    requires ValidConfig(cfg) && buffers.Lists() == EMPTY
    modifies buffers
    ensures ScanMeans(cfg, NonBlank(rows), scan, header, buffers.Lists())
  {
    header, scan := None, Complete;
    var logicalRow := 0;
    ghost var lines: seq<seq<string>> := [];
    for i := 0 to |rows|
      invariant lines == NonBlank(rows[..i]) && logicalRow == |lines| && scan == Complete
      invariant Progress(cfg, lines, header, buffers.Lists())
    {
      hide ValidConfig, NonBlank, Progress, IsBlank;
      NonBlankStep(rows, i);
      if !IsBlank(rows[i]) {
        logicalRow := logicalRow + 1;
        scan, header := TakeLine(cfg, lines, rows[i], logicalRow, header, buffers);
        lines := lines + [rows[i]];
        if scan != Complete {
          ScanLifts(cfg, lines, NonBlank(rows), scan, header, buffers.Lists());
          return;
        }
      }
    }
    assert rows[..|rows|] == rows;
  }

  lemma ScanDecides(cfg: Config, rows: seq<seq<string>>, ending: Ending, scan: Scan, header: Option<Layout>, st: State)
    requires ScanMeans(cfg, NonBlank(rows), scan, header, st)
    ensures Ingest(cfg, rows, ending)
         == match scan
            case Complete => Ok(WithSeriesValidation(cfg, AfterEnding(cfg, st, ending)))
            case Refused(result) => Ok(result)
            case Escaping => Err(Uncaught)
  {
    if scan == Escaping {
      var fold := RowsFold(cfg, header.value.index, header.value.width, header.value.start, NonBlank(rows)[1..]);
      assert fold.error == Uncaught;
    }
  }

  method ReadAndNormalize(cfg: Config, rows: seq<seq<string>>, ending: Ending) returns (r: Result<Ingested, Uncaught>)
    requires ValidConfig(cfg)
    ensures r == Ingest(cfg, rows, ending)
  {
    var buffers := new Buffers();
    var scan, header := ScanRows(cfg, rows, buffers);
    ScanDecides(cfg, rows, ending, scan, header, buffers.Lists());
    match scan
    case Refused(result) => r := Ok(result);
    case Escaping => r := Err(Uncaught);
    case Complete => r := FinishIngestion(cfg, buffers, ending);
  }

  method FinishIngestion(cfg: Config, buffers: Buffers, ending: Ending) returns (r: Result<Ingested, Uncaught>)
    modifies buffers
    ensures r == Ok(WithSeriesValidation(cfg, AfterEnding(cfg, old(buffers.Lists()), ending)))
  {
    if ending != EndOfInput {
      var d := if ending == DecodeFailed then SourceDecodeFailed else SourceParseFailed;
      buffers.diagnostics := buffers.diagnostics + [d];
      buffers.dlq := buffers.dlq + [Dlq(SourceId(cfg.sourceName), [d])];
    }
    var series := ValidateSeries(buffers.candidates, cfg.grid);
    buffers.RefuseIssues(cfg, series.issues);
    buffers.ReportGaps(series.gaps);
    r := Ok(Ingested(Map((c: Candidate) => c.record, series.valid), buffers.diagnostics, buffers.dlq));
  }
}
