/** One `index()` call with the collection to itself: coalesce, retrieve, compare, insert, verify. */
module VectorIndex {
  import opened Wrappers
  import opened VectorPayload
  import Coalescing

  function IdOf(lib: Library, e: Entry): string {
    lib.pointId(IdentityOf(e))
  }

  // ---------- in-call duplicates ----------

  /** No identity is supplied with two different contents. */
  ghost predicate Consistent(entries: seq<Entry>) {
    forall a, b :: a in entries && b in entries && IdentityOf(a) == IdentityOf(b) ==> a == b
  }

  function Coalesce(entries: seq<Entry>): Result<seq<Entry>, AppError> {
    Coalescing.Coalesce(IdentityOf, entries)
  }

  /** Coalescing refuses exactly the inconsistent batches; it loses nothing and leaves each identity once. */
  lemma CoalesceMeaning(entries: seq<Entry>)
    ensures Coalesce(entries).Ok? <==> Consistent(entries)
    ensures Coalesce(entries).Err? ==> Coalesce(entries) == Err(Conflict)
    ensures Coalesce(entries).Ok? ==>
              && (forall e :: e in Coalesce(entries).value <==> e in entries)
              && Coalescing.DistinctKeys(IdentityOf, Coalesce(entries).value)
  {
    if Coalescing.Consistent(IdentityOf, entries) {
      Coalescing.CoalesceMeaning(IdentityOf, entries);
    }
  }

  // ---------- retrieval ----------

  /** The backend's answer to a retrieval: one record for each requested id that is stored. */
  function BackendRetrieve(store: Store, ids: seq<string>): seq<Record> {
    if ids == [] then []
    else
      var front, last := ids[..|ids| - 1], ids[|ids| - 1];
      BackendRetrieve(store, front)
        + if last in store && last !in front then [Record(last, Some(store[last].payload))] else []
  }

  type Observed = map<string, Stored>

  function FileRecord(observed: Observed, stored: Stored): Result<Observed, AppError> {
    if stored.pointId in observed then Err(DependencyUnavailable) else Ok(observed[stored.pointId := stored])
  }

  function FileRecords(lib: Library, records: seq<Record>): Result<Observed, AppError> {
    if records == [] then Ok(map[])
    else
      var observed :- FileRecords(lib, records[..|records| - 1]);
      var stored :- ParseStoredPoint(lib, records[|records| - 1]);
      FileRecord(observed, stored)
  }

  lemma FilingStep(lib: Library, records: seq<Record>, i: nat, observed: Observed, parsed: Result<Stored, AppError>)
    requires i < |records| && FileRecords(lib, records[..i]) == Ok(observed)
    requires parsed == ParseStoredPoint(lib, records[i])
    ensures FileRecords(lib, records[..i + 1])
         == match parsed { case Ok(stored) => FileRecord(observed, stored) case Err(e) => Err(e) }
  {
    assert records[..i + 1][..i] == records[..i];
  }

  lemma {:induction false} FilingFails(lib: Library, records: seq<Record>, i: nat)
    requires i <= |records| && FileRecords(lib, records[..i]).Err?
    ensures FileRecords(lib, records) == FileRecords(lib, records[..i])
  {
    if i < |records| {
      assert records[..|records| - 1][..i] == records[..i];
      FilingFails(lib, records[..|records| - 1], i);
    } else {
      assert records[..i] == records;
    }
  }

  function Ids(lib: Library, entries: seq<Entry>): seq<string> {
    Map((e: Entry) => IdOf(lib, e), entries)
  }

  function Retrieve(lib: Library, store: Store, entries: seq<Entry>): Result<Observed, AppError> {
    FileRecords(lib, BackendRetrieve(store, Ids(lib, entries)))
  }

  method RetrieveByEntries(lib: Library, store: Store, entries: seq<Entry>) returns (r: Result<Observed, AppError>)
    ensures r == Retrieve(lib, store, entries)
  {
    r := FileAnswer(lib, BackendRetrieve(store, Ids(lib, entries)));
  }

  /** File whatever records the backend answered, asked for or not. */
  method FileAnswer(lib: Library, records: seq<Record>) returns (r: Result<Observed, AppError>)
    ensures r == FileRecords(lib, records)
  {
    var observed: Observed := map[];
    for i := 0 to |records|
      invariant FileRecords(lib, records[..i]) == Ok(observed)
    {
      var parsed := ParseStoredPoint(lib, records[i]);
      FilingStep(lib, records, i, observed, parsed);
      if parsed.Err? {
        FilingFails(lib, records, i + 1);
        return Err(parsed.error);
      }
      if parsed.value.pointId in observed {
        FilingFails(lib, records, i + 1);
        return Err(DependencyUnavailable);
      }
      observed := observed[parsed.value.pointId := parsed.value];
    }
    assert records[..|records|] == records;
    r := Ok(observed);
  }

  /** Every record parses, and no two parse to the same id. */
  ghost predicate WellAnswered(lib: Library, records: seq<Record>) {
    && (forall i :: 0 <= i < |records| ==> ParseStoredPoint(lib, records[i]).Ok?)
    && (forall i, j :: 0 <= i < j < |records| ==>
          ParseStoredPoint(lib, records[i]).value.pointId != ParseStoredPoint(lib, records[j]).value.pointId)
  }

  /** Each record is filed under its own id, and nothing else is. */
  ghost predicate FiledAll(lib: Library, records: seq<Record>, observed: Observed)
    requires WellAnswered(lib, records)
  {
    && (forall i :: 0 <= i < |records| ==>
          var stored := ParseStoredPoint(lib, records[i]).value; stored.pointId in observed && observed[stored.pointId] == stored)
    && (forall id :: id in observed ==>
          exists i :: 0 <= i < |records| && ParseStoredPoint(lib, records[i]).value.pointId == id)
  }

  lemma ParseFails(lib: Library, record: Record)
    ensures ParseStoredPoint(lib, record).Err? ==> ParseStoredPoint(lib, record) == Err(DependencyUnavailable)
  {
  }

  ghost predicate Files(lib: Library, records: seq<Record>, r: Result<Observed, AppError>) {
    if WellAnswered(lib, records) then r.Ok? && FiledAll(lib, records, r.value) else r == Err(DependencyUnavailable)
  }

  /** An answer is filed exactly when all its records are well formed and have different ids. */
  lemma {:induction false} FilingMeaning(lib: Library, records: seq<Record>)
    ensures Files(lib, records, FileRecords(lib, records))
  {
    if records != [] {
      var front, last := records[..|records| - 1], records[|records| - 1];
      assert records == front + [last];
      hide *;
      FilingMeaning(lib, front);
      FilingOne(lib, front, last);
    }
  }

  lemma FilingOne(lib: Library, front: seq<Record>, last: Record)
    requires Files(lib, front, FileRecords(lib, front))
    ensures Files(lib, front + [last], FileRecords(lib, front + [last]))
  {
    assert (front + [last])[..|front|] == front;
    ParseFails(lib, last);
    hide ParseStoredPoint, WellAnswered, FiledAll;
    if !WellAnswered(lib, front) || ParseStoredPoint(lib, last).Err? {
      IllAnswered(lib, front, last);
    } else {
      AnswerOne(lib, front, last, FileRecords(lib, front).value);
    }
  }

  lemma IllAnswered(lib: Library, front: seq<Record>, last: Record)
    requires !WellAnswered(lib, front) || ParseStoredPoint(lib, last).Err?
    ensures !WellAnswered(lib, front + [last])
  {
    hide ParseStoredPoint;
    var all := front + [last];
    assert all[|front|] == last && forall i :: 0 <= i < |front| ==> all[i] == front[i];
  }

  lemma AnswerOne(lib: Library, front: seq<Record>, last: Record, observed: Observed)
    requires WellAnswered(lib, front) && FiledAll(lib, front, observed) && ParseStoredPoint(lib, last).Ok?
    ensures var stored := ParseStoredPoint(lib, last).value;
            if stored.pointId in observed then !WellAnswered(lib, front + [last])
            else WellAnswered(lib, front + [last]) && FiledAll(lib, front + [last], observed[stored.pointId := stored])
  {
    hide ParseStoredPoint;
    var all, stored := front + [last], ParseStoredPoint(lib, last).value;
    assert all[|front|] == last && forall i :: 0 <= i < |front| ==> all[i] == front[i];
    if stored.pointId in observed {
      var i :| 0 <= i < |front| && ParseStoredPoint(lib, front[i]).value.pointId == stored.pointId;
      assert all[i] == front[i];
    }
  }

  /** `observed` tells, for exactly the requested ids that are stored, the fingerprint stored there. */
  ghost predicate Observes(observed: Observed, store: Store, ids: seq<string>) {
    && (forall id :: id in observed <==> id in ids && id in store)
    && (forall id :: id in observed ==> Some(observed[id].fingerprint) == StoredFingerprint(store, id))
  }

  lemma ObserveOne(observed: Observed, store: Store, front: seq<string>, last: string, stored: Stored)
    requires Observes(observed, store, front) && last in store && last !in front
    requires stored.pointId == last && Some(stored.fingerprint) == StoredFingerprint(store, last)
    ensures last !in observed && Observes(observed[last := stored], store, front + [last])
  {
  }

  lemma ObserveAgain(observed: Observed, store: Store, front: seq<string>, last: string)
    requires Observes(observed, store, front) && (last !in store || last in front)
    ensures Observes(observed, store, front + [last])
  {
  }

  lemma FilingNothing(lib: Library, store: Store)
    ensures FileRecords(lib, []) == Ok(map[]) && Observes(map[], store, [])
  {
  }

  lemma FileNewId(lib: Library, store: Store, records: seq<Record>, observed: Observed, last: string)
    returns (stored: Stored)
    requires Lawful(lib) && WrittenByIndex(lib, store) && last in store
    requires FileRecords(lib, records) == Ok(observed)
    ensures stored.pointId == last && Some(stored.fingerprint) == StoredFingerprint(store, last)
    ensures FileRecords(lib, records + [Record(last, Some(store[last].payload))]) == FileRecord(observed, stored)
  {
    var e := StoredReadsBack(lib, store, last);
    stored := Stored(last, e.chunk, lib.fingerprint(e));
    var more := records + [Record(last, Some(store[last].payload))];
    assert more[..|records|] == records && more[..|records| + 1] == more;
    FilingStep(lib, more, |records|, observed, Ok(stored));
  }

  /** Over a collection written only by `index`, retrieval always succeeds and reports what is stored. */
  lemma {:induction false} FilingStoredIds(lib: Library, store: Store, ids: seq<string>) returns (observed: Observed)
    requires Lawful(lib) && WrittenByIndex(lib, store)
    ensures FileRecords(lib, BackendRetrieve(store, ids)) == Ok(observed)
    ensures Observes(observed, store, ids)
  {
    hide Lawful, WrittenByIndex, FileRecords, StoredFingerprint, Observes;
    if ids == [] {
      observed := map[];
      FilingNothing(lib, store);
    } else {
      var front, last := ids[..|ids| - 1], ids[|ids| - 1];
      observed := FilingStoredIds(lib, store, front);
      assert ids == front + [last];
      if last in store && last !in front {
        var stored := FileNewId(lib, store, BackendRetrieve(store, front), observed, last);
        ObserveOne(observed, store, front, last, stored);
        observed := observed[last := stored];
      } else {
        assert BackendRetrieve(store, ids) == BackendRetrieve(store, front);
        ObserveAgain(observed, store, front, last);
      }
    }
  }

  // ---------- comparing, inserting, verifying ----------

  function Compare(lib: Library, e: Entry, observed: Observed, sofar: seq<Entry>): Result<seq<Entry>, AppError> {
    if IdOf(lib, e) !in observed then Ok(sofar + [e])
    else if observed[IdOf(lib, e)].fingerprint == lib.fingerprint(e) then Ok(sofar)
    else Err(Conflict)
  }

  /** The entries still to insert; a stored entry of another content is a conflict. */
  function ToInsert(lib: Library, batch: seq<Entry>, observed: Observed): Result<seq<Entry>, AppError> {
    if batch == [] then Ok([])
    else
      var sofar :- ToInsert(lib, batch[..|batch| - 1], observed);
      Compare(lib, batch[|batch| - 1], observed, sofar)
  }

  lemma {:induction false} CompareFails(lib: Library, batch: seq<Entry>, observed: Observed, i: nat)
    requires i <= |batch| && ToInsert(lib, batch[..i], observed).Err?
    ensures ToInsert(lib, batch, observed) == Err(Conflict)
  {
    if i < |batch| {
      assert batch[..|batch| - 1][..i] == batch[..i];
      CompareFails(lib, batch[..|batch| - 1], observed, i);
    } else {
      assert batch[..i] == batch;
      var k := |batch|;
      if k > 0 && ToInsert(lib, batch[..k - 1], observed).Err? {
        assert batch[..k - 1][..k - 1] == batch[..k - 1];
        CompareFails(lib, batch[..k - 1], observed, k - 1);
      }
    }
  }

  /** INSERT_ONLY: a point that exists already is left alone. */
  function InsertPoint(lib: Library, store: Store, e: Entry): Store {
    if IdOf(lib, e) in store then store else store[IdOf(lib, e) := ToPoint(lib, e)]
  }

  function InsertOnly(lib: Library, store: Store, entries: seq<Entry>): Store {
    if entries == [] then store
    else InsertPoint(lib, InsertOnly(lib, store, entries[..|entries| - 1]), entries[|entries| - 1])
  }

  function VerifyEntry(lib: Library, e: Entry, after: Observed): Option<AppError> {
    if IdOf(lib, e) !in after then Some(DependencyUnavailable)
    else if after[IdOf(lib, e)].fingerprint != lib.fingerprint(e) then Some(Conflict)
    else None
  }

  /** The first entry whose write cannot be confirmed decides the error. */
  function Verify(lib: Library, entries: seq<Entry>, after: Observed): Option<AppError> {
    if entries == [] then None
    else
      var earlier := Verify(lib, entries[..|entries| - 1], after);
      if earlier.Some? then earlier else VerifyEntry(lib, entries[|entries| - 1], after)
  }

  predicate Dimensioned(entries: seq<Entry>, size: nat) {
    forall e :: e in entries ==> |e.vector| == size
  }

  datatype Outcome = Outcome(result: Result<(), AppError>, store: Store)

  function FinishInsert(lib: Library, store: Store, toInsert: seq<Entry>): Outcome {
    var written := InsertOnly(lib, store, toInsert);
    match Retrieve(lib, written, toInsert)
    case Err(e) => Outcome(Err(e), written)
    case Ok(after) =>
      match Verify(lib, toInsert, after)
      case Some(e) => Outcome(Err(e), written)
      case None => Outcome(Ok(()), written)
  }

  /** The whole call on a collection nobody else writes meanwhile. */
  function IndexAlone(lib: Library, size: nat, store: Store, entries: seq<Entry>): Outcome {
    if entries == [] then Outcome(Ok(()), store)
    else
      match Coalesce(entries)
      case Err(e) => Outcome(Err(e), store)
      case Ok(batch) =>
        if !Dimensioned(batch, size) then Outcome(Err(InvalidRequest), store)
        else
          match Retrieve(lib, store, batch)
          case Err(e) => Outcome(Err(e), store)
          case Ok(existing) =>
            match ToInsert(lib, batch, existing)
            case Err(e) => Outcome(Err(e), store)
            case Ok(toInsert) =>
              if toInsert == [] then Outcome(Ok(()), store) else FinishInsert(lib, store, toInsert)
  }

  /** The index over its collection. */
  class QdrantDocumentVectorIndex {
    const lib: Library
    const vectorSize: nat
    var store: Store

    constructor (lib: Library, vectorSize: nat, store: Store)
      ensures this.lib == lib && this.vectorSize == vectorSize && this.store == store
    {
      this.lib := lib;
      this.vectorSize := vectorSize;
      this.store := store;
    }

    method Upsert(entries: seq<Entry>)
      modifies this
      ensures store == InsertOnly(lib, old(store), entries)
    {
      ghost var before := store;
      for i := 0 to |entries|
        invariant store == InsertOnly(lib, before, entries[..i])
      {
        assert entries[..i + 1][..i] == entries[..i];
        store := InsertPoint(lib, store, entries[i]);
      }
      assert entries[..|entries|] == entries;
    }

    method SelectInserts(batch: seq<Entry>, existing: Observed) returns (r: Result<seq<Entry>, AppError>)
      ensures r == ToInsert(lib, batch, existing)
    {
      var toInsert: seq<Entry> := [];
      for i := 0 to |batch|
        invariant ToInsert(lib, batch[..i], existing) == Ok(toInsert)
      {
        assert batch[..i + 1][..i] == batch[..i];
        var id := IdOf(lib, batch[i]);
        if id !in existing {
          toInsert := toInsert + [batch[i]];
        } else if existing[id].fingerprint != lib.fingerprint(batch[i]) {
          CompareFails(lib, batch, existing, i + 1);
          return Err(Conflict);
        }
      }
      assert batch[..|batch|] == batch;
      r := Ok(toInsert);
    }

    method ConfirmInserts(entries: seq<Entry>, after: Observed) returns (r: Option<AppError>)
      ensures r == Verify(lib, entries, after)
    {
      for i := 0 to |entries|
        invariant Verify(lib, entries[..i], after) == None
      {
        assert entries[..i + 1][..i] == entries[..i];
        var found := VerifyEntry(lib, entries[i], after);
        if found.Some? {
          VerifyStops(lib, entries, after, i + 1);
          return found;
        }
      }
      assert entries[..|entries|] == entries;
      r := None;
    }

    method Index(entries: seq<Entry>) returns (r: Result<(), AppError>)
      modifies this
      ensures Outcome(r, store) == IndexAlone(lib, vectorSize, old(store), entries)
    {
      if entries == [] {
        return Ok(());
      }
      var coalesced := Coalescing.CoalesceByKey(IdentityOf, entries);
      if coalesced.Err? {
        return Err(coalesced.error);
      }
      var batch := coalesced.value;
      if !Dimensioned(batch, vectorSize) {
        return Err(InvalidRequest);
      }
      var existing := RetrieveByEntries(lib, store, batch);
      if existing.Err? {
        return Err(existing.error);
      }
      var selected := SelectInserts(batch, existing.value);
      if selected.Err? {
        return Err(selected.error);
      }
      if selected.value == [] {
        return Ok(());
      }
      Upsert(selected.value);
      var after := RetrieveByEntries(lib, store, selected.value);
      if after.Err? {
        return Err(after.error);
      }
      var failure := ConfirmInserts(selected.value, after.value);
      r := if failure.Some? then Err(failure.value) else Ok(());
    }
  }

  lemma {:induction false} VerifyStops(lib: Library, entries: seq<Entry>, after: Observed, i: nat)
    requires i <= |entries| && Verify(lib, entries[..i], after).Some?
    ensures Verify(lib, entries, after) == Verify(lib, entries[..i], after)
  {
    if i < |entries| {
      assert entries[..|entries| - 1][..i] == entries[..i];
      VerifyStops(lib, entries[..|entries| - 1], after, i);
    } else {
      assert entries[..i] == entries;
    }
  }
}
