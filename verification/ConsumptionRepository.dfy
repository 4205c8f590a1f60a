/** Saving consumption observations: one transaction per batch, refused on any disagreement. */
module ConsumptionRepository {
  import opened Wrappers
  import opened SeriesValidation
  import Coalescing

  /** Rows by primary key. */
  type Table = map<Key, Record>

  /** Every row is filed under its own key. */
  ghost predicate Filed(table: Table) {
    forall k :: k in table ==> KeyOf(table[k]) == k
  }

  function Normalize(records: seq<Record>): Result<seq<Record>, AppError> {
    Coalescing.Coalesce(KeyOf, records)
  }

  /** INSERT ... ON CONFLICT DO NOTHING, row by row. */
  function InsertRows(table: Table, records: seq<Record>): Table {
    if records == [] then table
    else
      var before, last := InsertRows(table, records[..|records| - 1]), records[|records| - 1];
      if KeyOf(last) in before then before else before[KeyOf(last) := last]
  }

  /** The first record whose stored row is missing or different decides the error. */
  function Confirm(table: Table, records: seq<Record>): Option<AppError> {
    if records == [] then None
    else
      var earlier, last := Confirm(table, records[..|records| - 1]), records[|records| - 1];
      if earlier.Some? then earlier
      else if KeyOf(last) !in table then Some(DependencyUnavailable)
      else if table[KeyOf(last)] != last then Some(Conflict)
      else None
  }

  datatype Saved = Saved(result: Result<(), AppError>, table: Table)

  /** What one call returns and leaves behind. */
  function Save(table: Table, records: seq<Record>): Saved {
    match Normalize(records)
    case Err(e) => Saved(Err(e), table)
    case Ok(rows) =>
      if rows == [] then Saved(Ok(()), table)
      else
        match Confirm(InsertRows(table, rows), rows)
        case Some(e) => Saved(Err(e), table)
        case None => Saved(Ok(()), InsertRows(table, rows))
  }

  /** The repository over its table. A failed transaction leaves no trace. */
  class PostgresConsumptionRepository {
    var table: Table

    constructor (table: Table)
      ensures this.table == table
    {
      this.table := table;
    }

    method SaveMany(records: seq<Record>) returns (r: Result<(), AppError>)
      modifies this
      ensures Saved(r, table) == Save(old(table), records)
    {
      var normalized := Coalescing.CoalesceByKey(KeyOf, records);
      if normalized.Err? {
        return Err(normalized.error);
      }
      var rows := normalized.value;
      if rows == [] {
        return Ok(());
      }
      var transaction := Insert(rows);
      var failure := Check(transaction, rows);
      if failure.Some? {
        return Err(failure.value);
      }
      table := transaction;
      r := Ok(());
    }

    method Insert(rows: seq<Record>) returns (transaction: Table)
      ensures transaction == InsertRows(table, rows)
    {
      transaction := table;
      for i := 0 to |rows|
        invariant transaction == InsertRows(table, rows[..i])
      {
        assert rows[..i + 1][..i] == rows[..i];
        if KeyOf(rows[i]) !in transaction {
          transaction := transaction[KeyOf(rows[i]) := rows[i]];
        }
      }
      assert rows[..|rows|] == rows;
    }

    static method Check(transaction: Table, rows: seq<Record>) returns (failure: Option<AppError>)
      ensures failure == Confirm(transaction, rows)
    {
      for i := 0 to |rows|
        invariant Confirm(transaction, rows[..i]) == None
      {
        assert rows[..i + 1][..i] == rows[..i];
        if KeyOf(rows[i]) !in transaction {
          ConfirmStops(transaction, rows, i + 1);
          return Some(DependencyUnavailable);
        }
        if transaction[KeyOf(rows[i])] != rows[i] {
          ConfirmStops(transaction, rows, i + 1);
          return Some(Conflict);
        }
      }
      assert rows[..|rows|] == rows;
      failure := None;
    }
  }

  lemma {:induction false} ConfirmStops(table: Table, records: seq<Record>, i: nat)
    requires i <= |records| && Confirm(table, records[..i]).Some?
    ensures Confirm(table, records) == Confirm(table, records[..i])
  {
    if i < |records| {
      assert records[..|records| - 1][..i] == records[..i];
      ConfirmStops(table, records[..|records| - 1], i);
    } else {
      assert records[..i] == records;
    }
  }

  // ---------- one call ----------

  /** The batch agrees with itself and with what is stored. */
  ghost predicate Agrees(table: Table, records: seq<Record>) {
    && (forall a, b :: a in records && b in records && KeyOf(a) == KeyOf(b) ==> a == b)
    && (forall r :: r in records && KeyOf(r) in table ==> table[KeyOf(r)] == r)
  }

  /** The rows of `table` together with those of `records`, and nothing else. */
  ghost predicate IsUnion(table: Table, records: seq<Record>, result: Table) {
    && (forall k :: k in table ==> k in result && result[k] == table[k])
    && (forall r :: r in records ==> KeyOf(r) in result && result[KeyOf(r)] == r)
    && (forall k :: k in result && k !in table ==> result[k] in records)
  }

  lemma {:induction false} InsertRowsMeaning(table: Table, rows: seq<Record>)
    requires Filed(table) && Coalescing.DistinctKeys(KeyOf, rows)
    ensures Filed(InsertRows(table, rows))
    ensures forall k :: k in table ==> k in InsertRows(table, rows) && InsertRows(table, rows)[k] == table[k]
    ensures forall k :: k in InsertRows(table, rows) && k !in table ==> InsertRows(table, rows)[k] in rows
    ensures forall r :: r in rows ==> KeyOf(r) in InsertRows(table, rows)
    ensures forall r :: r in rows && KeyOf(r) !in table ==> InsertRows(table, rows)[KeyOf(r)] == r
  {
    if rows != [] {
      var front, last := rows[..|rows| - 1], rows[|rows| - 1];
      InsertRowsMeaning(table, front);
      assert rows == front + [last];
      assert forall r :: r in front ==> KeyOf(r) != KeyOf(last);
    }
  }

  lemma {:induction false} ConfirmMeaning(table: Table, rows: seq<Record>)
    requires forall r :: r in rows ==> KeyOf(r) in table
    ensures Confirm(table, rows) == None <==> forall r :: r in rows ==> table[KeyOf(r)] == r
    ensures Confirm(table, rows).Some? ==> Confirm(table, rows) == Some(Conflict)
  {
    if rows != [] {
      ConfirmMeaning(table, rows[..|rows| - 1]);
      assert rows == rows[..|rows| - 1] + [rows[|rows| - 1]];
    }
  }

  /** A call commits its whole batch or changes nothing, and commits exactly when the batch agrees. */
  lemma SaveMeaning(table: Table, records: seq<Record>)
    requires Filed(table)
    ensures Save(table, records).result == if Agrees(table, records) then Ok(()) else Err(Conflict)
    ensures if Agrees(table, records) then IsUnion(table, records, Save(table, records).table)
            else Save(table, records).table == table
    ensures Filed(Save(table, records).table)
  {
    if Coalescing.Consistent(KeyOf, records) {
      Coalescing.CoalesceMeaning(KeyOf, records);
      var rows := Normalize(records).value;
      var written := InsertRows(table, rows);
      InsertRowsMeaning(table, rows);
      ConfirmMeaning(written, rows);
      assert (forall r :: r in rows ==> written[KeyOf(r)] == r) <==> Agrees(table, records) by {
        forall r | r in rows && Agrees(table, records) ensures written[KeyOf(r)] == r {
        }
      }
    }
  }

  /** Records with distinct keys pass normalisation unchanged. */
  lemma NormalizeIdentity(records: seq<Record>)
    requires Coalescing.DistinctKeys(KeyOf, records)
    ensures Normalize(records) == Ok(records)
  {
    Coalescing.CoalesceIdentity(KeyOf, records);
  }

  // ---------- sequences of calls ----------

  /** The table after a sequence of calls. */
  function Run(table: Table, batches: seq<seq<Record>>): Table {
    if batches == [] then table
    else Save(Run(table, batches[..|batches| - 1]), batches[|batches| - 1]).table
  }

  /** The batches whose call committed, in order. */
  function Committed(table: Table, batches: seq<seq<Record>>): seq<seq<Record>> {
    if batches == [] then []
    else
      var front, last := batches[..|batches| - 1], batches[|batches| - 1];
      Committed(table, front) + if Save(Run(table, front), last).result.Ok? then [last] else []
  }

  function Flatten(batches: seq<seq<Record>>): seq<Record> {
    if batches == [] then [] else Flatten(batches[..|batches| - 1]) + batches[|batches| - 1]
  }

  lemma {:induction false} FlattenMembers(batches: seq<seq<Record>>)
    ensures forall r :: r in Flatten(batches) <==> exists b :: b in batches && r in b
  {
    if batches != [] {
      var front, last := batches[..|batches| - 1], batches[|batches| - 1];
      FlattenMembers(front);
      assert batches == front + [last];
      forall r ensures r in Flatten(batches) <==> exists b :: b in batches && r in b {
        if b :| b in batches && r in b {
          assert b in front || b == last;
        }
        if b :| b in front && r in b {
          assert b in batches;
        }
        if r in last {
          assert last in batches;
        }
      }
    }
  }

  /** After any calls the table is the initial one plus exactly the committed batches; no row is ever replaced. */
  lemma {:induction false} RunIsUnion(table: Table, batches: seq<seq<Record>>)
    requires Filed(table)
    ensures Filed(Run(table, batches))
    ensures IsUnion(table, Flatten(Committed(table, batches)), Run(table, batches))
  {
    if batches != [] {
      var front, last := batches[..|batches| - 1], batches[|batches| - 1];
      RunIsUnion(table, front);
      var middle := Run(table, front);
      SaveMeaning(middle, last);
      var committed := Committed(table, batches);
      if Agrees(middle, last) {
        assert committed[..|committed| - 1] == Committed(table, front);
        UnionStep(table, Flatten(Committed(table, front)), middle, last, Run(table, batches));
      } else {
        assert committed == Committed(table, front);
      }
    }
  }

  lemma UnionStep(table: Table, first: seq<Record>, middle: Table, second: seq<Record>, result: Table)
    requires IsUnion(table, first, middle) && IsUnion(middle, second, result)
    ensures IsUnion(table, first + second, result)
  {
  }

  lemma UnionUnique(table: Table, records: seq<Record>, other: seq<Record>, a: Table, b: Table)
    requires Filed(a) && Filed(b) && IsUnion(table, records, a) && IsUnion(table, other, b)
    requires forall r :: r in records <==> r in other
    ensures a == b
  {
    forall k | k in a ensures k in b && b[k] == a[k] {
      if k !in table {
        assert a[k] in other;
      }
    }
    forall k | k in b ensures k in a {
      if k !in table {
        assert b[k] in records;
      }
    }
  }

  /** Batches that all lie within one final table commit in whatever order they are called. */
  lemma {:induction false} BatchesWithinCommit(table: Table, batches: seq<seq<Record>>, whole: Table)
    requires Filed(table)
    requires forall k :: k in table ==> k in whole && whole[k] == table[k]
    requires forall b, r :: b in batches && r in b ==> KeyOf(r) in whole && whole[KeyOf(r)] == r
    ensures Committed(table, batches) == batches
    ensures forall k :: k in Run(table, batches) ==> k in whole && whole[k] == Run(table, batches)[k]
  {
    if batches != [] {
      var front, last := batches[..|batches| - 1], batches[|batches| - 1];
      assert batches == front + [last];
      assert last in batches;
      BatchesWithinCommit(table, front, whole);
      RunIsUnion(table, front);
      var middle := Run(table, front);
      assert Agrees(middle, last);
      SaveMeaning(middle, last);
      forall k | k in Run(table, batches) ensures k in whole && whole[k] == Run(table, batches)[k] {
        if k !in middle {
          assert Run(table, batches)[k] in last;
        }
      }
    }
  }

  /** Any reordering of the committed batches commits them all and yields the same table. */
  lemma CommittedReorder(table: Table, batches: seq<seq<Record>>, reordered: seq<seq<Record>>)
    requires Filed(table) && multiset(reordered) == multiset(Committed(table, batches))
    ensures Committed(table, reordered) == reordered
    ensures Run(table, reordered) == Run(table, batches)
  {
    var committed, whole := Committed(table, batches), Run(table, batches);
    RunIsUnion(table, batches);
    FlattenMembers(committed);
    FlattenMembers(reordered);
    assert forall b :: (b in committed <==> b in multiset(committed)) && (b in reordered <==> b in multiset(reordered));
    BatchesWithinCommit(table, reordered, whole);
    RunIsUnion(table, reordered);
    UnionUnique(table, Flatten(committed), Flatten(reordered), whole, Run(table, reordered));
  }
}
