/** What one undisturbed `index()` call guarantees: all or nothing, idempotent, and able to finish a partial write. */
module VectorIndexAlone {
  import opened Wrappers
  import opened VectorPayload
  import opened VectorIndex

  /** What is stored under the entry's id, if anything, is that entry's own content. */
  ghost predicate Agrees(lib: Library, store: Store, e: Entry) {
    IdOf(lib, e) in store ==> StoredFingerprint(store, IdOf(lib, e)) == Some(lib.fingerprint(e))
  }

  /** The batch agrees with itself, with the configured dimension and with the collection. */
  ghost predicate Acceptable(lib: Library, size: nat, store: Store, entries: seq<Entry>) {
    && Consistent(entries) && (forall e :: e in entries ==> |e.vector| == size)
    && forall e :: e in entries ==> Agrees(lib, store, e)
  }

  /** The point ids of this batch do not collide. */
  ghost predicate SeparateIds(lib: Library, entries: seq<Entry>) {
    forall a, b :: a in entries && b in entries && IdOf(lib, a) == IdOf(lib, b) ==> IdentityOf(a) == IdentityOf(b)
  }

  ghost predicate Extends(store: Store, later: Store) {
    forall id :: id in store ==> id in later && later[id] == store[id]
  }

  ghost predicate NewFrom(lib: Library, entries: seq<Entry>, id: string, p: Point) {
    exists e :: e in entries && IdOf(lib, e) == id && p == ToPoint(lib, e)
  }

  /** `later` is `store` plus a point for each entry that had none, and nothing else. */
  ghost predicate Grown(lib: Library, store: Store, entries: seq<Entry>, later: Store) {
    && Extends(store, later)
    && (forall e :: e in entries ==> IdOf(lib, e) in later)
    && (forall id :: id in later && id !in store ==> NewFrom(lib, entries, id, later[id]))
  }

  lemma {:induction false} InsertOnlyGrows(lib: Library, store: Store, entries: seq<Entry>)
    ensures Grown(lib, store, entries, InsertOnly(lib, store, entries))
  {
    if entries != [] {
      var front, last := entries[..|entries| - 1], entries[|entries| - 1];
      InsertOnlyGrows(lib, store, front);
      assert entries == front + [last];
      var before, later := InsertOnly(lib, store, front), InsertOnly(lib, store, entries);
      forall id | id in later && id !in store ensures NewFrom(lib, entries, id, later[id]) {
        if id in before {
          assert NewFrom(lib, front, id, before[id]);
        } else {
          assert last in entries && later[id] == ToPoint(lib, last);
        }
      }
    }
  }

  /** The observation made of a batch, entry by entry. */
  ghost predicate Faithful(lib: Library, observed: Observed, store: Store, batch: seq<Entry>) {
    forall e :: e in batch ==>
      && (IdOf(lib, e) in observed <==> IdOf(lib, e) in store)
      && (IdOf(lib, e) in observed ==> Some(observed[IdOf(lib, e)].fingerprint) == StoredFingerprint(store, IdOf(lib, e)))
  }

  lemma RetrieveIsFaithful(lib: Library, store: Store, batch: seq<Entry>) returns (observed: Observed)
    requires Lawful(lib) && WrittenByIndex(lib, store)
    ensures Retrieve(lib, store, batch) == Ok(observed) && Faithful(lib, observed, store, batch)
  {
    observed := FilingStoredIds(lib, store, Ids(lib, batch));
    forall e | e in batch ensures IdOf(lib, e) in Ids(lib, batch) {
      var i :| 0 <= i < |batch| && batch[i] == e;
      assert Ids(lib, batch)[i] == IdOf(lib, e);
    }
  }

  /** `chosen` are the entries of the batch that have no stored point. */
  ghost predicate Missing(lib: Library, store: Store, batch: seq<Entry>, chosen: seq<Entry>) {
    forall e :: e in chosen <==> e in batch && IdOf(lib, e) !in store
  }

  lemma {:induction false} ToInsertMeaning(lib: Library, store: Store, batch: seq<Entry>, observed: Observed)
    requires Faithful(lib, observed, store, batch)
    ensures ToInsert(lib, batch, observed).Ok? <==> forall e :: e in batch ==> Agrees(lib, store, e)
    ensures ToInsert(lib, batch, observed).Ok? ==> Missing(lib, store, batch, ToInsert(lib, batch, observed).value)
    ensures ToInsert(lib, batch, observed).Err? ==> ToInsert(lib, batch, observed) == Err(Conflict)
  {
    if batch != [] {
      var front, last := batch[..|batch| - 1], batch[|batch| - 1];
      assert batch == front + [last];
      assert last in batch;
      ToInsertMeaning(lib, store, front, observed);
    }
  }

  /** What was observed of the entry is its own content. */
  ghost predicate Confirmed(lib: Library, e: Entry, after: Observed) {
    IdOf(lib, e) in after && after[IdOf(lib, e)].fingerprint == lib.fingerprint(e)
  }

  /** `entries[i]` is the first entry that is not confirmed, and `error` says whether it is lost or another. */
  ghost predicate FirstUnconfirmed(lib: Library, entries: seq<Entry>, after: Observed, i: nat, error: AppError) {
    && i < |entries| && !Confirmed(lib, entries[i], after) && (forall j :: 0 <= j < i ==> Confirmed(lib, entries[j], after))
    && error == if IdOf(lib, entries[i]) in after then Conflict else DependencyUnavailable
  }

  /** Whatever is read back after writing: all is well exactly when every entry is confirmed; the first that is not decides. */
  lemma {:induction false} VerifyMeaning(lib: Library, entries: seq<Entry>, after: Observed)
    ensures Verify(lib, entries, after) == None <==> forall i :: 0 <= i < |entries| ==> Confirmed(lib, entries[i], after)
    ensures forall error :: Verify(lib, entries, after) == Some(error) ==> exists i: nat :: FirstUnconfirmed(lib, entries, after, i, error)
  {
    if entries != [] {
      var k := |entries| - 1;
      VerifyMeaning(lib, entries[..k], after);
      if Verify(lib, entries[..k], after).Some? {
        var error := Verify(lib, entries[..k], after).value;
        var i: nat :| FirstUnconfirmed(lib, entries[..k], after, i, error);
        assert FirstUnconfirmed(lib, entries, after, i, error);
      } else if Verify(lib, entries, after).Some? {
        assert FirstUnconfirmed(lib, entries, after, k, Verify(lib, entries, after).value);
      }
    }
  }

  /** `chosen` are, in order, exactly the entries of the batch whose id was not observed; `at` are their positions. */
  ghost predicate ChosenAt(lib: Library, batch: seq<Entry>, observed: Observed, chosen: seq<Entry>, at: seq<nat>) {
    && |at| == |chosen| && (forall i, j :: 0 <= i < j < |at| ==> at[i] < at[j])
    && (forall k :: 0 <= k < |at| ==> at[k] < |batch| && chosen[k] == batch[at[k]])
    && (forall i :: 0 <= i < |batch| ==> (IdOf(lib, batch[i]) !in observed <==> i in at))
  }

  lemma {:induction false} ChooseOne(lib: Library, front: seq<Entry>, last: Entry, observed: Observed,
                                     chosen: seq<Entry>, at: seq<nat>)
    requires ChosenAt(lib, front, observed, chosen, at)
    ensures IdOf(lib, last) in observed ==> ChosenAt(lib, front + [last], observed, chosen, at)
    ensures IdOf(lib, last) !in observed ==> ChosenAt(lib, front + [last], observed, chosen + [last], at + [|front|])
  {
    hide IdOf;
    assert forall i :: i in at ==> i < |front|;
  }

  /** Whatever is observed before writing: selection refuses exactly a differing observation. */
  lemma {:induction false} SelectAccepts(lib: Library, batch: seq<Entry>, observed: Observed)
    ensures if forall i :: 0 <= i < |batch| && IdOf(lib, batch[i]) in observed ==> Confirmed(lib, batch[i], observed)
            then ToInsert(lib, batch, observed).Ok? else ToInsert(lib, batch, observed) == Err(Conflict)
  {
    if batch != [] {
      var front, last := batch[..|batch| - 1], batch[|batch| - 1];
      SelectAccepts(lib, front, observed);
      hide IdOf;
    }
  }

  /** And it selects the others, in their order. */
  lemma {:induction false} SelectMeaning(lib: Library, batch: seq<Entry>, observed: Observed) returns (at: seq<nat>)
    requires ToInsert(lib, batch, observed).Ok?
    ensures ChosenAt(lib, batch, observed, ToInsert(lib, batch, observed).value, at)
  {
    at := [];
    if batch != [] {
      var front, last := batch[..|batch| - 1], batch[|batch| - 1];
      at := SelectMeaning(lib, front, observed);
      hide ChosenAt, IdOf;
      assert batch == front + [last];
      ChooseOne(lib, front, last, observed, ToInsert(lib, front, observed).value, at);
      at := if IdOf(lib, last) in observed then at else at + [|front|];
    }
  }

  lemma {:induction false} VerifySucceeds(lib: Library, entries: seq<Entry>, after: Observed)
    requires forall e :: e in entries ==>
               IdOf(lib, e) in after && after[IdOf(lib, e)].fingerprint == lib.fingerprint(e)
    ensures Verify(lib, entries, after) == None
  {
    if entries != [] {
      VerifySucceeds(lib, entries[..|entries| - 1], after);
    }
  }

  /** A grown collection is still one that only `index` has written. */
  lemma GrownIsWritten(lib: Library, store: Store, entries: seq<Entry>, later: Store)
    requires WrittenByIndex(lib, store) && Grown(lib, store, entries, later)
    requires forall e :: e in entries ==> ValidEntry(e)
    ensures WrittenByIndex(lib, later)
  {
    forall id | id in later ensures exists e :: Holds(lib, later, id, e) {
      if id in store {
        var e :| Holds(lib, store, id, e);
        assert Holds(lib, later, id, e);
      } else {
        assert NewFrom(lib, entries, id, later[id]);
        var e :| e in entries && IdOf(lib, e) == id && later[id] == ToPoint(lib, e);
        assert Holds(lib, later, id, e);
      }
    }
  }

  /** With separate ids, every inserted entry is found afterwards under its own content. */
  lemma InsertedIsOwn(lib: Library, store: Store, entries: seq<Entry>, later: Store, e: Entry)
    requires Grown(lib, store, entries, later) && Consistent(entries) && SeparateIds(lib, entries)
    requires e in entries && IdOf(lib, e) !in store
    ensures later[IdOf(lib, e)] == ToPoint(lib, e)
    ensures StoredFingerprint(later, IdOf(lib, e)) == Some(lib.fingerprint(e))
  {
    assert NewFrom(lib, entries, IdOf(lib, e), later[IdOf(lib, e)]);
  }

  /** Inserting the missing entries and checking them succeeds. */
  lemma FinishSucceeds(lib: Library, store: Store, toInsert: seq<Entry>)
    requires Lawful(lib) && WrittenByIndex(lib, store) && Consistent(toInsert) && SeparateIds(lib, toInsert)
    requires forall e :: e in toInsert ==> ValidEntry(e) && IdOf(lib, e) !in store
    ensures FinishInsert(lib, store, toInsert) == Outcome(Ok(()), InsertOnly(lib, store, toInsert))
  {
    var later := InsertOnly(lib, store, toInsert);
    InsertOnlyGrows(lib, store, toInsert);
    GrownIsWritten(lib, store, toInsert, later);
    var after := RetrieveIsFaithful(lib, later, toInsert);
    forall e | e in toInsert
      ensures IdOf(lib, e) in after && after[IdOf(lib, e)].fingerprint == lib.fingerprint(e)
    {
      InsertedIsOwn(lib, store, toInsert, later, e);
    }
    VerifySucceeds(lib, toInsert, after);
  }

  /** Two of the entries that have no stored point yet share an id but not their content. */
  ghost predicate IdsClash(lib: Library, store: Store, entries: seq<Entry>) {
    exists a, b :: a in entries && b in entries && IdOf(lib, a) == IdOf(lib, b) && IdOf(lib, a) !in store
                   && lib.fingerprint(a) != lib.fingerprint(b)
  }

  /** What a new point is confirmed as. */
  lemma {:induction false} NewPointContent(lib: Library, store: Store, entries: seq<Entry>, later: Store,
                                           e: Entry) returns (x: Entry)
    requires Grown(lib, store, entries, later) && e in entries && IdOf(lib, e) !in store
    ensures x in entries && IdOf(lib, x) == IdOf(lib, e)
    ensures StoredFingerprint(later, IdOf(lib, e)) == Some(lib.fingerprint(x))
  {
    assert NewFrom(lib, entries, IdOf(lib, e), later[IdOf(lib, e)]);
    x :| x in entries && IdOf(lib, x) == IdOf(lib, e) && later[IdOf(lib, e)] == ToPoint(lib, x);
  }

  lemma {:induction false} UnconfirmedMeansClash(lib: Library, store: Store, toInsert: seq<Entry>, later: Store, after: Observed)
    requires Grown(lib, store, toInsert, later) && Faithful(lib, after, later, toInsert)
    requires forall e :: e in toInsert ==> IdOf(lib, e) !in store
    ensures forall e :: e in toInsert ==> IdOf(lib, e) in after
    ensures (forall e :: e in toInsert ==> Confirmed(lib, e, after)) <==> !IdsClash(lib, store, toInsert)
  {
    hide StoredFingerprint, IdOf, NewFrom;
    forall e | e in toInsert ensures IdOf(lib, e) in after {
    }
    if IdsClash(lib, store, toInsert) {
      var a, b :| a in toInsert && b in toInsert && IdOf(lib, a) == IdOf(lib, b) && IdOf(lib, a) !in store
                  && lib.fingerprint(a) != lib.fingerprint(b);
      assert !Confirmed(lib, a, after) || !Confirmed(lib, b, after);
    } else {
      forall e | e in toInsert ensures Confirmed(lib, e, after) {
        var x := NewPointContent(lib, store, toInsert, later, e);
      }
    }
  }

  lemma {:induction false} VerifiedExactly(lib: Library, entries: seq<Entry>, after: Observed)
    requires forall e :: e in entries ==> IdOf(lib, e) in after
    ensures Verify(lib, entries, after)
         == if forall e :: e in entries ==> Confirmed(lib, e, after) then None else Some(Conflict)
  {
    VerifyMeaning(lib, entries, after);
    hide Verify, Confirmed, IdOf;
    if Verify(lib, entries, after).Some? {
      var i: nat :| FirstUnconfirmed(lib, entries, after, i, Verify(lib, entries, after).value);
      assert entries[i] in entries;
    }
  }

  /** Inserting missing entries always writes them all; it is confirmed exactly when no two of them clash. */
  lemma {:induction false} FinishMeaning(lib: Library, store: Store, toInsert: seq<Entry>)
    requires Lawful(lib) && WrittenByIndex(lib, store)
    requires forall e :: e in toInsert ==> ValidEntry(e) && IdOf(lib, e) !in store
    ensures FinishInsert(lib, store, toInsert)
         == Outcome(if IdsClash(lib, store, toInsert) then Err(Conflict) else Ok(()), InsertOnly(lib, store, toInsert))
  {
    var later := InsertOnly(lib, store, toInsert);
    InsertOnlyGrows(lib, store, toInsert);
    GrownIsWritten(lib, store, toInsert, later);
    var after := RetrieveIsFaithful(lib, later, toInsert);
    UnconfirmedMeansClash(lib, store, toInsert, later, after);
    VerifiedExactly(lib, toInsert, after);
    hide Lawful, WrittenByIndex, InsertOnly, Retrieve, Verify, StoredFingerprint, Grown, Faithful, Confirmed, IdsClash, IdOf, ValidEntry;
  }

  lemma GrownForWholeBatch(lib: Library, store: Store, entries: seq<Entry>, chosen: seq<Entry>, later: Store)
    requires Missing(lib, store, entries, chosen) && Grown(lib, store, chosen, later)
    ensures Grown(lib, store, entries, later)
  {
    forall id | id in later && id !in store ensures NewFrom(lib, entries, id, later[id]) {
      assert NewFrom(lib, chosen, id, later[id]);
    }
    forall e | e in entries ensures IdOf(lib, e) in later {
      assert IdOf(lib, e) !in store ==> e in chosen;
    }
  }

  /**
   * Whatever the ids. The call writes the missing points exactly on acceptable batches, and then succeeds
   * exactly when no two different new contents met under one id; otherwise the collection is untouched.
   */
  lemma {:induction false} IndexAloneExact(lib: Library, size: nat, store: Store, entries: seq<Entry>)
    requires Lawful(lib) && WrittenByIndex(lib, store)
    requires forall e :: e in entries ==> ValidEntry(e)
    ensures IndexAlone(lib, size, store, entries).result
         == if Acceptable(lib, size, store, entries) && !IdsClash(lib, store, entries) then Ok(())
            else if Consistent(entries) && exists e :: e in entries && |e.vector| != size then Err(InvalidRequest)
            else Err(Conflict)
    ensures if Acceptable(lib, size, store, entries)
            then Grown(lib, store, entries, IndexAlone(lib, size, store, entries).store)
            else IndexAlone(lib, size, store, entries).store == store
  {
    CoalesceMeaning(entries);
    hide Lawful, WrittenByIndex, InsertOnly, ToInsert, FinishInsert;
    if entries != [] && Consistent(entries) {
      var batch := Coalesce(entries).value;
      if Dimensioned(batch, size) {
        var existing := RetrieveIsFaithful(lib, store, batch);
        ToInsertMeaning(lib, store, batch, existing);
        if ToInsert(lib, batch, existing).Ok? {
          var toInsert := ToInsert(lib, batch, existing).value;
          FinishMeaning(lib, store, toInsert);
          InsertOnlyGrows(lib, store, toInsert);
          GrownForWholeBatch(lib, store, entries, toInsert, InsertOnly(lib, store, toInsert));
          hide Retrieve, Coalesce, Grown;
          MissingClash(lib, store, entries, toInsert);
        }
      }
    }
  }

  lemma {:induction false} MissingClash(lib: Library, store: Store, entries: seq<Entry>, chosen: seq<Entry>)
    requires Missing(lib, store, entries, chosen)
    ensures IdsClash(lib, store, chosen) <==> IdsClash(lib, store, entries)
    ensures chosen == [] ==> !IdsClash(lib, store, entries) && Grown(lib, store, entries, store)
  {
    if chosen == [] {
      forall e | e in entries ensures IdOf(lib, e) in store {
        assert e !in chosen;
      }
    }
  }

  /**
   * All or nothing. The call succeeds exactly on acceptable batches; it then adds the missing points
   * and nothing else. Otherwise the collection is untouched, and the error says which agreement failed.
   */
  lemma IndexAloneMeaning(lib: Library, size: nat, store: Store, entries: seq<Entry>)
    requires Lawful(lib) && WrittenByIndex(lib, store) && SeparateIds(lib, entries)
    requires forall e :: e in entries ==> ValidEntry(e)
    ensures IndexAlone(lib, size, store, entries).result
         == if Acceptable(lib, size, store, entries) then Ok(())
            else if Consistent(entries) && exists e :: e in entries && |e.vector| != size then Err(InvalidRequest)
            else Err(Conflict)
    ensures if Acceptable(lib, size, store, entries)
            then Grown(lib, store, entries, IndexAlone(lib, size, store, entries).store)
            else IndexAlone(lib, size, store, entries).store == store
    ensures WrittenByIndex(lib, IndexAlone(lib, size, store, entries).store)
  {
    CoalesceMeaning(entries);
    hide Lawful, WrittenByIndex, InsertOnly, ToInsert;
    if entries != [] && Consistent(entries) {
      var batch := Coalesce(entries).value;
      if Dimensioned(batch, size) {
        var existing := RetrieveIsFaithful(lib, store, batch);
        ToInsertMeaning(lib, store, batch, existing);
        if ToInsert(lib, batch, existing).Ok? {
          var toInsert := ToInsert(lib, batch, existing).value;
          var later := InsertOnly(lib, store, toInsert);
          FinishSucceeds(lib, store, toInsert);
          InsertOnlyGrows(lib, store, toInsert);
          GrownForWholeBatch(lib, store, entries, toInsert, later);
          GrownIsWritten(lib, store, entries, later);
        }
      }
    }
  }

  /** Where nothing clashed, every entry is stored under its own content. */
  lemma {:induction false} GrownStores(lib: Library, store: Store, entries: seq<Entry>, later: Store, e: Entry)
    requires Grown(lib, store, entries, later) && !IdsClash(lib, store, entries) && e in entries && Agrees(lib, store, e)
    ensures IdOf(lib, e) in later && StoredFingerprint(later, IdOf(lib, e)) == Some(lib.fingerprint(e))
  {
    if IdOf(lib, e) !in store {
      var x := NewPointContent(lib, store, entries, later, e);
    }
  }

  /** After a success every entry is stored with its own fingerprint. */
  lemma {:induction false} SuccessStoresEverything(lib: Library, size: nat, store: Store, entries: seq<Entry>, e: Entry)
    requires Lawful(lib) && WrittenByIndex(lib, store)
    requires forall x :: x in entries ==> ValidEntry(x)
    requires IndexAlone(lib, size, store, entries).result.Ok? && e in entries
    ensures var later := IndexAlone(lib, size, store, entries).store;
            IdOf(lib, e) in later && StoredFingerprint(later, IdOf(lib, e)) == Some(lib.fingerprint(e))
  {
    IndexAloneExact(lib, size, store, entries);
    hide IndexAlone, Lawful, WrittenByIndex, Grown, IdsClash, Agrees, StoredFingerprint;
    GrownStores(lib, store, entries, IndexAlone(lib, size, store, entries).store, e);
  }

  lemma PartIsWritten(lib: Library, partial: Store, whole: Store)
    requires WrittenByIndex(lib, whole) && Extends(partial, whole)
    ensures WrittenByIndex(lib, partial)
  {
    forall id | id in partial ensures exists e :: Holds(lib, partial, id, e) {
      var e :| Holds(lib, whole, id, e);
      assert Holds(lib, partial, id, e);
    }
  }

  lemma PartIsAcceptable(lib: Library, size: nat, partial: Store, whole: Store, entries: seq<Entry>)
    requires Consistent(entries) && Dimensioned(entries, size) && Extends(partial, whole)
    requires forall e :: e in entries ==>
               IdOf(lib, e) in whole && StoredFingerprint(whole, IdOf(lib, e)) == Some(lib.fingerprint(e))
    ensures Acceptable(lib, size, partial, entries)
  {
  }

  /**
   * Retries finish the job: whatever part of the batch an interrupted write left behind, running the
   * same batch again succeeds and ends in the collection one clean run would have produced.
   */
  lemma RetryConverges(lib: Library, size: nat, store: Store, entries: seq<Entry>, partial: Store, clean: Store)
    requires Lawful(lib) && WrittenByIndex(lib, store) && SeparateIds(lib, entries)
    requires forall e :: e in entries ==> ValidEntry(e)
    requires IndexAlone(lib, size, store, entries) == Outcome(Ok(()), clean)
    requires Extends(store, partial) && Extends(partial, clean)
    ensures IndexAlone(lib, size, partial, entries) == Outcome(Ok(()), clean)
  {
    IndexAloneMeaning(lib, size, store, entries);
    PartIsWritten(lib, partial, clean);
    forall e | e in entries
      ensures IdOf(lib, e) in clean && StoredFingerprint(clean, IdOf(lib, e)) == Some(lib.fingerprint(e))
    {
      SuccessStoresEverything(lib, size, store, entries, e);
    }
    PartIsAcceptable(lib, size, partial, clean, entries);
    IndexAloneMeaning(lib, size, partial, entries);
    var again := IndexAlone(lib, size, partial, entries);
    assert again.result == Ok(());
    GrownUnique(lib, store, partial, entries, clean, again.store);
    assert again == Outcome(Ok(()), clean);
  }

  lemma GrownUnique(lib: Library, store: Store, partial: Store, entries: seq<Entry>, clean: Store, retried: Store)
    requires Consistent(entries) && SeparateIds(lib, entries)
    requires Grown(lib, store, entries, clean) && Extends(store, partial) && Extends(partial, clean)
    requires Grown(lib, partial, entries, retried)
    ensures clean == retried
  {
    forall id | id in clean ensures id in retried && retried[id] == clean[id] {
      if id !in partial {
        assert NewFrom(lib, entries, id, clean[id]);
        assert NewFrom(lib, entries, id, retried[id]);
      }
    }
    forall id | id in retried ensures id in clean {
      if id !in partial {
        assert NewFrom(lib, entries, id, retried[id]);
      }
    }
  }

  lemma {:induction false} NothingToGrow(lib: Library, store: Store, entries: seq<Entry>, later: Store)
    requires Grown(lib, store, entries, later) && forall e :: e in entries ==> IdOf(lib, e) in store
    ensures later == store
  {
    assert forall id, p :: NewFrom(lib, entries, id, p) ==> id in store;
    hide NewFrom, IdOf;
    assert later.Keys <= store.Keys;
  }

  lemma {:induction false} NothingClashes(lib: Library, store: Store, entries: seq<Entry>)
    requires forall e :: e in entries ==> IdOf(lib, e) in store
    ensures !IdsClash(lib, store, entries)
  {
  }

  /** Repeating a successful call succeeds and writes nothing. */
  lemma {:induction false} RepeatWritesNothing(lib: Library, size: nat, store: Store, entries: seq<Entry>, clean: Store)
    requires Lawful(lib) && WrittenByIndex(lib, store)
    requires forall e :: e in entries ==> ValidEntry(e)
    requires IndexAlone(lib, size, store, entries) == Outcome(Ok(()), clean)
    ensures IndexAlone(lib, size, clean, entries) == Outcome(Ok(()), clean)
  {
    IndexAloneExact(lib, size, store, entries);
    GrownIsWritten(lib, store, entries, clean);
    hide IndexAlone, Lawful, WrittenByIndex, Grown, StoredFingerprint, IdOf, IdsClash;
    forall e | e in entries
      ensures IdOf(lib, e) in clean && StoredFingerprint(clean, IdOf(lib, e)) == Some(lib.fingerprint(e))
    {
      SuccessStoresEverything(lib, size, store, entries, e);
    }
    NothingClashes(lib, clean, entries);
    IndexAloneExact(lib, size, clean, entries);
    NothingToGrow(lib, clean, entries, IndexAlone(lib, size, clean, entries).store);
  }
}
