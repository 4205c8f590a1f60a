/**
 * The fate of every data row, and everything an ingestion returns in terms of those fates: its records,
 * its dead-letter records and its diagnostics.
 */
module CsvFates {
  import opened Wrappers
  import opened Text
  import opened SeriesValidation
  import opened SeriesVerdicts
  import opened ConsumptionMapping
  import opened CsvIngestion
  import opened CsvReturns

  /** What becomes of a data row. */
  datatype Fate =
    | Kept(record: Record)            // it is one of the records
    | RowRefused(d: Diagnostic)       // the row loop refuses it
    | SeriesRefused(code: IssueCode)  // it reads, but series validation refuses it
    | Lost                            // reading it raises what is not caught

  /** The record a row reads as, from the cells of the three fields. */
  function RowRecord(cfg: Config, layout: Layout, row: seq<string>): Option<Record>
    requires Columns(layout.index, layout.width)
  {
    if |row| != layout.width then None
    else
      match cfg.read(row[layout.index["consumer_id"]], row[layout.index["timestamp"]], row[layout.index["value_mw"]])
      case Accepted(record) => Some(record)
      case _ => None
  }

  /** Why the row loop refuses a row, if it does. */
  function RowRefusal(cfg: Config, layout: Layout, row: seq<string>): Option<Diagnostic>
    requires Columns(layout.index, layout.width)
  {
    if |row| != layout.width then Some(RowShapeInvalid)
    else if cfg.read(row[layout.index["consumer_id"]], row[layout.index["timestamp"]], row[layout.index["value_mw"]]).Rejected?
    then Some(RowValidationFailed)
    else None
  }

  /** Another row reads as an observation of the same consumer at the same instant. */
  ghost predicate RowHasTwin(cfg: Config, layout: Layout, data: seq<seq<string>>, i: nat)
    requires Columns(layout.index, layout.width) && i < |data|
  {
    exists j, a, b :: 0 <= j < |data| && j != i
      && RowRecord(cfg, layout, data[i]) == Some(a) && RowRecord(cfg, layout, data[j]) == Some(b)
      && a.consumerId == b.consumerId && a.timestamp == b.timestamp
  }

  ghost function FateOf(cfg: Config, layout: Layout, data: seq<seq<string>>, i: nat): Fate
    requires Columns(layout.index, layout.width) && i < |data|
  {
    match RowRefusal(cfg, layout, data[i])
    case Some(d) => RowRefused(d)
    case None =>
      match RowRecord(cfg, layout, data[i])
      case None => Lost
      case Some(record) =>
        if RowHasTwin(cfg, layout, data, i) then SeriesRefused(DuplicateTimestamp)
        else if OffGrid(cfg.grid, record.timestamp) then SeriesRefused(IntervalMisaligned)
        else Kept(record)
  }

  // ---------- what the row loop collects ----------

  ghost function Readable(cfg: Config, layout: Layout, data: seq<seq<string>>): set<nat>
    requires Columns(layout.index, layout.width)
  {
    set i: nat | i < |data| && RowRecord(cfg, layout, data[i]).Some?
  }

  ghost function Unreadable(cfg: Config, layout: Layout, data: seq<seq<string>>): set<nat>
    requires Columns(layout.index, layout.width)
  {
    set i: nat | i < |data| && RowRefusal(cfg, layout, data[i]).Some?
  }

  /** The dead-letter record of data row `i`; the first data row is row 2 of the file. */
  function RowDlq(cfg: Config, i: nat, d: Diagnostic): Dlq {
    Dlq(cfg.sourceName + ":row:" + Decimal(i + 2), [d])
  }

  /** `candidates` are the readings of exactly the readable rows, in order. */
  ghost predicate Candidates(cfg: Config, layout: Layout, data: seq<seq<string>>, readable: seq<nat>, candidates: seq<Candidate>)
    requires Columns(layout.index, layout.width)
  {
    && Enumerates(readable, Readable(cfg, layout, data)) && |candidates| == |readable|
    && forall k :: 0 <= k < |readable| ==>
         && readable[k] < |data| && RowRecord(cfg, layout, data[readable[k]]).Some?
         && candidates[k] == Candidate(RowRecord(cfg, layout, data[readable[k]]).value, readable[k] + 2)
  }

  /** `dlq` and `diagnostics` are those of exactly the unreadable rows, in order. */
  ghost predicate Refusals(cfg: Config, layout: Layout, data: seq<seq<string>>, refused: seq<nat>, dlq: seq<Dlq>,
                           diagnostics: seq<Diagnostic>)
    requires Columns(layout.index, layout.width)
  {
    && Enumerates(refused, Unreadable(cfg, layout, data)) && |dlq| == |refused| == |diagnostics|
    && forall k :: 0 <= k < |refused| ==>
         && refused[k] < |data| && RowRefusal(cfg, layout, data[refused[k]]).Some?
         && diagnostics[k] == RowRefusal(cfg, layout, data[refused[k]]).value
         && dlq[k] == RowDlq(cfg, refused[k], diagnostics[k])
  }

  lemma {:induction false} CandidatesSkip(cfg: Config, layout: Layout, data: seq<seq<string>>, row: seq<string>,
                                          readable: seq<nat>, candidates: seq<Candidate>)
    requires Columns(layout.index, layout.width) && Candidates(cfg, layout, data, readable, candidates)
    requires RowRecord(cfg, layout, row).None?
    ensures Candidates(cfg, layout, data + [row], readable, candidates)
  {
    hide RowRecord, Columns;
    assert Readable(cfg, layout, data + [row]) == Readable(cfg, layout, data);
  }

  lemma {:induction false} CandidatesAdd(cfg: Config, layout: Layout, data: seq<seq<string>>, row: seq<string>,
                                         readable: seq<nat>, candidates: seq<Candidate>, record: Record)
    requires Columns(layout.index, layout.width) && Candidates(cfg, layout, data, readable, candidates)
    requires RowRecord(cfg, layout, row) == Some(record)
    ensures Candidates(cfg, layout, data + [row], readable + [|data|], candidates + [Candidate(record, |data| + 2)])
  {
    hide RowRecord, Columns;
    assert Readable(cfg, layout, data + [row]) == Readable(cfg, layout, data) + {|data|};
    EnumerateMore(readable, Readable(cfg, layout, data), |data|);
    hide Enumerates;
  }

  lemma {:induction false} RefusalsSkip(cfg: Config, layout: Layout, data: seq<seq<string>>, row: seq<string>,
                                        refused: seq<nat>, dlq: seq<Dlq>, diagnostics: seq<Diagnostic>)
    requires Columns(layout.index, layout.width) && Refusals(cfg, layout, data, refused, dlq, diagnostics)
    requires RowRefusal(cfg, layout, row).None?
    ensures Refusals(cfg, layout, data + [row], refused, dlq, diagnostics)
  {
    hide RowRefusal, Columns;
    assert Unreadable(cfg, layout, data + [row]) == Unreadable(cfg, layout, data);
  }

  lemma {:induction false} RefusalsAdd(cfg: Config, layout: Layout, data: seq<seq<string>>, row: seq<string>,
                                       refused: seq<nat>, dlq: seq<Dlq>, diagnostics: seq<Diagnostic>, d: Diagnostic)
    requires Columns(layout.index, layout.width) && Refusals(cfg, layout, data, refused, dlq, diagnostics)
    requires RowRefusal(cfg, layout, row) == Some(d)
    ensures Refusals(cfg, layout, data + [row], refused + [|data|], dlq + [RowDlq(cfg, |data|, d)], diagnostics + [d])
  {
    hide RowRefusal, Columns, RowDlq;
    assert Unreadable(cfg, layout, data + [row]) == Unreadable(cfg, layout, data) + {|data|};
    EnumerateMore(refused, Unreadable(cfg, layout, data), |data|);
    hide Enumerates;
  }

  /** What the loop's lists hold after `data`. */
  ghost predicate Collected(cfg: Config, layout: Layout, data: seq<seq<string>>, st: State, readable: seq<nat>, refused: seq<nat>,
                            added: seq<Diagnostic>)
    requires Columns(layout.index, layout.width)
  {
    && st.diagnostics == layout.start.diagnostics + added
    && Candidates(cfg, layout, data, readable, st.candidates) && Refusals(cfg, layout, data, refused, st.dlq, added)
  }

  /** The three things a row step can do. */
  lemma {:induction false} StepCases(cfg: Config, layout: Layout, st: State, row: seq<string>, i: nat)
    requires Columns(layout.index, layout.width)
    ensures RowStep(cfg, layout.index, layout.width, st, row, i + 2)
            == match RowRefusal(cfg, layout, row)
               case Some(d) => Ok(State(st.candidates, st.diagnostics + [d], st.dlq + [RowDlq(cfg, i, d)]))
               case None =>
                 match RowRecord(cfg, layout, row)
                 case Some(record) => Ok(State(st.candidates + [Candidate(record, i + 2)], st.diagnostics, st.dlq))
                 case None => Err(Uncaught)
    ensures RowRefusal(cfg, layout, row).None? || RowRecord(cfg, layout, row).None?
  {
  }

  lemma {:induction false} CollectOne(cfg: Config, layout: Layout, data: seq<seq<string>>, before: State,
                                      row: seq<string>, st: State,
                   readable: seq<nat>, refused: seq<nat>, added: seq<Diagnostic>)
    returns (readable': seq<nat>, refused': seq<nat>, added': seq<Diagnostic>)
    requires Columns(layout.index, layout.width) && Collected(cfg, layout, data, before, readable, refused, added)
    requires RowStep(cfg, layout.index, layout.width, before, row, |data| + 2) == Ok(st)
    ensures Collected(cfg, layout, data + [row], st, readable', refused', added')
  {
    StepCases(cfg, layout, before, row, |data|);
    hide RowStep, RowRefusal, RowRecord, Columns, Candidates, Refusals, RowDlq;
    readable', refused', added' := readable, refused, added;
    match RowRefusal(cfg, layout, row) {
      case Some(d) =>
        CandidatesSkip(cfg, layout, data, row, readable, before.candidates);
        RefusalsAdd(cfg, layout, data, row, refused, before.dlq, added, d);
        refused', added' := refused + [|data|], added + [d];
        assert layout.start.diagnostics + added + [d] == layout.start.diagnostics + (added + [d]);
      case None =>
        var record := RowRecord(cfg, layout, row).value;
        CandidatesAdd(cfg, layout, data, row, readable, before.candidates, record);
        RefusalsSkip(cfg, layout, data, row, refused, before.dlq, added);
        readable' := readable + [|data|];
    }
  }

  lemma {:induction false} NothingCollected(cfg: Config, layout: Layout)
    requires Columns(layout.index, layout.width) && layout.start.candidates == [] && layout.start.dlq == []
    ensures Collected(cfg, layout, [], layout.start, [], [], [])
  {
    assert layout.start.diagnostics + [] == layout.start.diagnostics;
  }

  lemma {:induction false} LoopMeaning(cfg: Config, layout: Layout, data: seq<seq<string>>, st: State)
    returns (readable: seq<nat>, refused: seq<nat>, added: seq<Diagnostic>)
    requires layout.start.candidates == [] && layout.start.dlq == [] && Columns(layout.index, layout.width)
    requires RowsFold(cfg, layout.index, layout.width, layout.start, data) == Ok(st)
    ensures Collected(cfg, layout, data, st, readable, refused, added)
    decreases |data|
  {
    hide Collected, Columns, RowStep;
    if data == [] {
      NothingCollected(cfg, layout);
      readable, refused, added := [], [], [];
    } else {
      var n := |data| - 1;
      var before := RowsFold(cfg, layout.index, layout.width, layout.start, data[..n]).value;
      readable, refused, added := LoopMeaning(cfg, layout, data[..n], before);
      readable, refused, added := CollectOne(cfg, layout, data[..n], before, data[n], st, readable, refused, added);
      assert data == data[..n] + [data[n]];
    }
  }
}
