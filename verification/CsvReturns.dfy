/** When an ingestion returns at all: exactly when no row of its file raises what the row handler does not catch. */
module CsvReturns {
  import opened Wrappers
  import opened CsvIngestion

  /** The lines of an accepted file: what the header fixed, and the data rows. */
  ghost predicate AcceptedFile(cfg: Config, rows: seq<seq<string>>, layout: Layout) {
    NonBlank(rows) != [] && LayoutOf(cfg, NonBlank(rows)[0]) == Ok(layout)
  }

  /** The data rows: the non-blank rows after the header. */
  function DataRows(rows: seq<seq<string>>): seq<seq<string>> {
    if NonBlank(rows) == [] then [] else NonBlank(rows)[1..]
  }

  /** A row of the header's width whose cells raise an exception that is not caught. */
  predicate Escapes(cfg: Config, layout: Layout, row: seq<string>) {
    Columns(layout.index, layout.width) && |row| == layout.width && ReadRow(cfg, layout.index, layout.width, row) == Escaped
  }

  /** Some data row of an accepted file escapes. */
  ghost predicate SomeRowEscapes(cfg: Config, rows: seq<seq<string>>) {
    && NonBlank(rows) != [] && LayoutOf(cfg, NonBlank(rows)[0]).Ok?
    && exists row :: row in DataRows(rows) && Escapes(cfg, LayoutOf(cfg, NonBlank(rows)[0]).value, row)
  }

  /** The row loop gets through exactly the data without an escaping row. */
  lemma {:induction false} FoldReturns(cfg: Config, layout: Layout, data: seq<seq<string>>)
    requires Columns(layout.index, layout.width)
    ensures RowsFold(cfg, layout.index, layout.width, layout.start, data).Ok? <==>
            forall row :: row in data ==> !Escapes(cfg, layout, row)
  {
    if data != [] {
      var front, last := data[..|data| - 1], data[|data| - 1];
      FoldReturns(cfg, layout, front);
      assert data == front + [last];
      if RowsFold(cfg, layout.index, layout.width, layout.start, front).Ok? {
        var before := RowsFold(cfg, layout.index, layout.width, layout.start, front).value;
        StepReturns(cfg, layout, before, last, |data| + 1);
      }
    }
  }

  lemma StepReturns(cfg: Config, layout: Layout, before: State, row: seq<string>, position: nat)
    requires Columns(layout.index, layout.width)
    ensures RowStep(cfg, layout.index, layout.width, before, row, position).Ok? <==> !Escapes(cfg, layout, row)
  {
  }

  /**
   * An ingestion returns exactly when no data row escapes; otherwise everything read so far is lost with
   * it. In particular empty files and refused headers always return.
   */
  lemma IngestReturns(cfg: Config, rows: seq<seq<string>>, ending: Ending)
    requires ValidConfig(cfg)
    ensures if SomeRowEscapes(cfg, rows) then Ingest(cfg, rows, ending) == Err(Uncaught) else Ingest(cfg, rows, ending).Ok?
  {
    var lines := NonBlank(rows);
    hide NonBlank, ValidConfig, IngestData, Escapes, WithSeriesValidation, AfterEnding, LayoutOf;
    if lines != [] && LayoutOf(cfg, lines[0]).Ok? {
      LayoutColumns(cfg, lines[0]);
      DataReturns(cfg, LayoutOf(cfg, lines[0]).value, lines[1..], ending);
    }
  }

  lemma DataReturns(cfg: Config, layout: Layout, data: seq<seq<string>>, ending: Ending)
    requires Columns(layout.index, layout.width)
    ensures if exists row :: row in data && Escapes(cfg, layout, row) then IngestData(cfg, layout, data, ending) == Err(Uncaught)
            else IngestData(cfg, layout, data, ending).Ok?
  {
    FoldReturns(cfg, layout, data);
    hide RowsFold, Escapes, WithSeriesValidation, AfterEnding;
    OnlyUncaught(RowsFold(cfg, layout.index, layout.width, layout.start, data));
  }

  lemma OnlyUncaught(r: Result<State, Uncaught>)
    ensures r.Err? ==> r == Err(Uncaught)
  {
    assert r.Err? ==> r.error.Uncaught?;
  }

  lemma LayoutColumns(cfg: Config, header: seq<string>)
    requires ValidConfig(cfg) && LayoutOf(cfg, header).Ok?
    ensures Columns(LayoutOf(cfg, header).value.index, LayoutOf(cfg, header).value.width)
  {
    AcceptedHeaderHasColumns(cfg, header);
  }

  /** Under an accepted header: the row-level condition, both ways. */
  lemma AcceptedReturns(cfg: Config, rows: seq<seq<string>>, ending: Ending, layout: Layout)
    requires ValidConfig(cfg) && AcceptedFile(cfg, rows, layout)
    ensures Ingest(cfg, rows, ending).Ok? <==> forall row :: row in DataRows(rows) ==> !Escapes(cfg, layout, row)
  {
    IngestReturns(cfg, rows, ending);
  }

  /** A file without lines, or with a refused header, returns whatever follows. */
  lemma UnreadRowsReturn(cfg: Config, rows: seq<seq<string>>, ending: Ending)
    requires ValidConfig(cfg) && (NonBlank(rows) == [] || !HeaderAccepted(cfg, NonBlank(rows)[0]))
    ensures Ingest(cfg, rows, ending).Ok?
  {
    IngestReturns(cfg, rows, ending);
  }

  /** What a returned ingestion of an accepted file is made from. */
  lemma IngestIsFold(cfg: Config, rows: seq<seq<string>>, ending: Ending, layout: Layout, result: Ingested)
    returns (st: State)
    requires AcceptedFile(cfg, rows, layout) && Ingest(cfg, rows, ending) == Ok(result)
    ensures Columns(layout.index, layout.width) && layout.start.candidates == [] && layout.start.dlq == []
    ensures RowsFold(cfg, layout.index, layout.width, layout.start, DataRows(rows)) == Ok(st)
    ensures result == WithSeriesValidation(cfg, AfterEnding(cfg, st, ending))
  {
    st := RowsFold(cfg, layout.index, layout.width, layout.start, NonBlank(rows)[1..]).value;
  }
}
