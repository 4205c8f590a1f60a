/** One call of the protocol with nobody else around: every order of lookups and writes is the undisturbed call. */
module VectorIndexSolo {
  import opened Wrappers
  import opened VectorPayload
  import opened VectorIndex
  import opened VectorIndexAlone
  import opened VectorIndexProtocol

  /** One call, moving alone from an arrival on. */
  ghost predicate SoloRun(lib: Library, size: nat, entries: seq<Entry>, stores: seq<Store>, calls: seq<Call>) {
    && |stores| == |calls| > 0 && calls[0] == Pending(entries) && Valid(entries)
    && WrittenByIndex(lib, stores[0])
    && forall i :: 0 < i < |stores| ==> CallStep(lib, size, stores[i - 1], calls[i - 1], stores[i], calls[i])
  }

  /** The collection has gained at most points of `entries`. */
  ghost predicate Between(lib: Library, start: Store, entries: seq<Entry>, store: Store) {
    Extends(start, store) && forall id :: id in store && id !in start ==> NewFrom(lib, entries, id, store[id])
  }

  /** The lookups of `looked` have been made in `store`. */
  ghost predicate LookedUp(lib: Library, observed: Observed, store: Store, looked: seq<Entry>) {
    Sound(observed, store) && forall e :: e in looked && IdOf(lib, e) in store ==> IdOf(lib, e) in observed
  }

  ghost predicate Chosen(lib: Library, size: nat, start: Store, entries: seq<Entry>, batch: seq<Entry>, toInsert: seq<Entry>) {
    Coalesced(entries, batch) && Acceptable(lib, size, start, entries) && Missing(lib, start, batch, toInsert)
  }

  /** Why a call that starts on `start` may be refused. */
  ghost predicate Rightly(lib: Library, size: nat, start: Store, entries: seq<Entry>, error: AppError) {
    && !Acceptable(lib, size, start, entries)
    && error == if Consistent(entries) && exists e :: e in entries && |e.vector| != size then InvalidRequest else Conflict
  }

  ghost predicate ReadingInv(lib: Library, size: nat, store: Store, entries: seq<Entry>, batch: seq<Entry>,
                             next: nat, existing: Observed) {
    && entries != [] && Coalesced(entries, batch) && Dimensioned(batch, size)
    && next <= |batch| && LookedUp(lib, existing, store, batch[..next])
  }

  ghost predicate WritingInv(lib: Library, start: Store, store: Store, toInsert: seq<Entry>, applied: set<nat>) {
    Between(lib, start, toInsert, store) && forall k :: k in applied && k < |toInsert| ==> IdOf(lib, toInsert[k]) in store
  }

  ghost predicate CheckingInv(lib: Library, start: Store, store: Store, toInsert: seq<Entry>, next: nat, after: Observed) {
    Grown(lib, start, toInsert, store) && next <= |toInsert| && LookedUp(lib, after, store, toInsert[..next])
  }

  ghost predicate ReturnedInv(lib: Library, size: nat, start: Store, entries: seq<Entry>, store: Store) {
    Acceptable(lib, size, start, entries) && Grown(lib, start, entries, store)
  }

  ghost predicate RaisedInv(lib: Library, size: nat, start: Store, entries: seq<Entry>, store: Store,
                            error: AppError, late: seq<Entry>) {
    if error == DependencyUnavailable then
      && Between(lib, start, entries, store) && (forall e :: e in late ==> e in entries)
      && (store != start || late != [] ==> Acceptable(lib, size, start, entries))
    else store == start && late == [] && Rightly(lib, size, start, entries, error)
  }

  ghost predicate SoloInv(lib: Library, size: nat, start: Store, entries: seq<Entry>, store: Store, call: Call) {
    && call.entries == entries
    && match call
       case Pending(_) => store == start
       case Reading(_, batch, next, existing) =>
         store == start && ReadingInv(lib, size, start, entries, batch, next, existing)
       case Writing(_, batch, toInsert, applied) =>
         Chosen(lib, size, start, entries, batch, toInsert) && WritingInv(lib, start, store, toInsert, applied)
       case Checking(_, batch, toInsert, next, after) =>
         Chosen(lib, size, start, entries, batch, toInsert) && CheckingInv(lib, start, store, toInsert, next, after)
       case Returned(_) => ReturnedInv(lib, size, start, entries, store)
       case Raised(_, error, late) => RaisedInv(lib, size, start, entries, store, error, late)
  }

  lemma BatchMembers(entries: seq<Entry>, batch: seq<Entry>)
    requires Coalesced(entries, batch)
    ensures Consistent(entries) && forall e :: e in batch <==> e in entries
  {
    CoalesceMeaning(entries);
  }

  lemma PendingSolo(lib: Library, size: nat, start: Store, entries: seq<Entry>, call': Call)
    requires PendingStep(lib, size, Pending(entries), call')
    ensures SoloInv(lib, size, start, entries, start, call')
  {
    CoalesceMeaning(entries);
  }

  lemma LookUpOne(lib: Library, store: Store, looked: seq<Entry>, e: Entry, observed: Observed)
    requires Lawful(lib) && WrittenByIndex(lib, store) && LookedUp(lib, observed, store, looked)
    ensures LookUp(lib, store, IdOf(lib, e), observed).Ok?
    ensures LookedUp(lib, LookUp(lib, store, IdOf(lib, e), observed).value, store, looked + [e])
  {
    LookUpSound(lib, store, IdOf(lib, e), observed);
    hide Lawful, WrittenByIndex, Sound, IdOf;
    if IdOf(lib, e) in store && IdOf(lib, e) !in observed {
      StoredParses(lib, store, IdOf(lib, e));
    }
  }

  lemma AllLookedUp(lib: Library, observed: Observed, store: Store, batch: seq<Entry>)
    requires LookedUp(lib, observed, store, batch)
    ensures Faithful(lib, observed, store, batch)
  {
  }

  lemma ReadingLooksUp(lib: Library, size: nat, start: Store, entries: seq<Entry>, batch: seq<Entry>, next: nat,
                       existing: Observed)
    requires Lawful(lib) && WrittenByIndex(lib, start)
    requires ReadingInv(lib, size, start, entries, batch, next, existing) && next < |batch|
    ensures var found := LookUp(lib, start, IdOf(lib, batch[next]), existing);
            found.Ok? && ReadingInv(lib, size, start, entries, batch, next + 1, found.value)
  {
    hide Lawful, WrittenByIndex, LookedUp, LookUp, Coalesced, Dimensioned;
    LookUpOne(lib, start, batch[..next], batch[next], existing);
    assert batch[..next + 1] == batch[..next] + [batch[next]];
  }

  lemma ReadingDecides(lib: Library, size: nat, start: Store, entries: seq<Entry>, batch: seq<Entry>, existing: Observed)
    requires ReadingInv(lib, size, start, entries, batch, |batch|, existing)
    ensures match ToInsert(lib, batch, existing)
            case Err(e) => RaisedInv(lib, size, start, entries, start, e, [])
            case Ok(toInsert) =>
              Chosen(lib, size, start, entries, batch, toInsert) && (toInsert == [] ==> ReturnedInv(lib, size, start, entries, start))
  {
    BatchMembers(entries, batch);
    assert batch[..|batch|] == batch;
    AllLookedUp(lib, existing, start, batch);
    ToInsertMeaning(lib, start, batch, existing);
    hide LookedUp, ToInsert, Coalesced, Faithful;
    assert forall e :: e in batch <==> e in entries;
  }

  lemma Interrupted(lib: Library, size: nat, start: Store, entries: seq<Entry>)
    ensures RaisedInv(lib, size, start, entries, start, DependencyUnavailable, [])
  {
  }

  lemma ReadingSolo(lib: Library, size: nat, start: Store, entries: seq<Entry>, call: Call, call': Call)
    requires Lawful(lib) && WrittenByIndex(lib, start)
    requires call.Reading? && SoloInv(lib, size, start, entries, start, call) && ReadingStep(lib, start, call, call')
    ensures SoloInv(lib, size, start, entries, start, call')
  {
    Interrupted(lib, size, start, entries);
    if call.next < |call.batch| {
      ReadingLooksUp(lib, size, start, entries, call.batch, call.next, call.existing);
    } else if call.next == |call.batch| {
      ReadingDecides(lib, size, start, entries, call.batch, call.existing);
    }
    hide Lawful, WrittenByIndex, LookUp, ToInsert, ReadingInv, RaisedInv, ReturnedInv, Chosen;
    if call'.Writing? {
      WritingStarts(lib, start, call'.toInsert);
    }
  }

  lemma WritingStarts(lib: Library, start: Store, toInsert: seq<Entry>)
    ensures WritingInv(lib, start, start, toInsert, {})
  {
  }

  lemma WritingApplies(lib: Library, start: Store, store: Store, toInsert: seq<Entry>, applied: set<nat>, k: nat)
    requires WritingInv(lib, start, store, toInsert, applied) && k < |toInsert|
    ensures WritingInv(lib, start, InsertPoint(lib, store, toInsert[k]), toInsert, applied + {k})
  {
    WriteOne(lib, start, toInsert, store, k);
  }

  lemma WritingDone(lib: Library, start: Store, store: Store, toInsert: seq<Entry>, applied: set<nat>)
    requires WritingInv(lib, start, store, toInsert, applied) && forall k: nat :: k < |toInsert| ==> k in applied
    ensures CheckingInv(lib, start, store, toInsert, 0, map[])
  {
    forall e | e in toInsert ensures IdOf(lib, e) in store {
      var k: nat :| k < |toInsert| && toInsert[k] == e;
      assert k in applied;
    }
  }

  lemma WritingInterrupted(lib: Library, size: nat, start: Store, entries: seq<Entry>, batch: seq<Entry>, toInsert: seq<Entry>,
                           store: Store, late: seq<Entry>)
    requires Chosen(lib, size, start, entries, batch, toInsert) && Between(lib, start, toInsert, store)
    requires late == [] || late == toInsert
    ensures RaisedInv(lib, size, start, entries, store, DependencyUnavailable, late)
  {
    BatchMembers(entries, batch);
    BetweenWhole(lib, start, entries, toInsert, store);
  }

  lemma WritingSolo(lib: Library, size: nat, start: Store, entries: seq<Entry>, store: Store, call: Call,
                    store': Store, call': Call)
    requires call.Writing? && SoloInv(lib, size, start, entries, store, call) && WritingStep(lib, store, call, store', call')
    ensures SoloInv(lib, size, start, entries, store', call')
  {
    WritingInterrupted(lib, size, start, entries, call.batch, call.toInsert, store, call.toInsert);
    hide Chosen, RaisedInv, WritingInv, CheckingInv, InsertPoint;
    if call'.Writing? {
      var k: nat :| Applies(lib, store, store', call.toInsert, k) && call' == call.(applied := call.applied + {k});
      WritingApplies(lib, start, store, call.toInsert, call.applied, k);
    } else if call'.Checking? {
      WritingDone(lib, start, store, call.toInsert, call.applied);
    }
  }

  lemma WriteOne(lib: Library, start: Store, entries: seq<Entry>, store: Store, k: nat)
    requires Between(lib, start, entries, store) && k < |entries|
    ensures Between(lib, start, entries, InsertPoint(lib, store, entries[k]))
    ensures IdOf(lib, entries[k]) in InsertPoint(lib, store, entries[k]) && Extends(store, InsertPoint(lib, store, entries[k]))
  {
    var later := InsertPoint(lib, store, entries[k]);
    forall id | id in later && id !in start ensures NewFrom(lib, entries, id, later[id]) {
      if id in store {
        assert NewFrom(lib, entries, id, store[id]);
      } else {
        assert entries[k] in entries;
      }
    }
  }

  lemma BetweenWhole(lib: Library, start: Store, entries: seq<Entry>, chosen: seq<Entry>, store: Store)
    requires Between(lib, start, chosen, store) && forall e :: e in chosen ==> e in entries
    ensures Between(lib, start, entries, store)
  {
    forall id | id in store && id !in start ensures NewFrom(lib, entries, id, store[id]) {
      assert NewFrom(lib, chosen, id, store[id]);
    }
  }

  lemma CheckSucceeds(lib: Library, size: nat, start: Store, entries: seq<Entry>, batch: seq<Entry>, toInsert: seq<Entry>,
                      store: Store, after: Observed)
    requires SeparateIds(lib, entries) && Chosen(lib, size, start, entries, batch, toInsert)
    requires Grown(lib, start, toInsert, store) && LookedUp(lib, after, store, toInsert)
    ensures Verify(lib, toInsert, after) == None
    ensures Grown(lib, start, entries, store)
  {
    BatchMembers(entries, batch);
    forall e | e in toInsert ensures IdOf(lib, e) in after && after[IdOf(lib, e)].fingerprint == lib.fingerprint(e) {
      InsertedIsOwn(lib, start, toInsert, store, e);
    }
    VerifySucceeds(lib, toInsert, after);
    GrownForWholeBatch(lib, start, entries, toInsert, store);
  }

  lemma CheckingLooksUp(lib: Library, start: Store, store: Store, toInsert: seq<Entry>, next: nat, after: Observed)
    requires Lawful(lib) && WrittenByIndex(lib, store)
    requires CheckingInv(lib, start, store, toInsert, next, after) && next < |toInsert|
    ensures var found := LookUp(lib, store, IdOf(lib, toInsert[next]), after);
            found.Ok? && CheckingInv(lib, start, store, toInsert, next + 1, found.value)
  {
    hide Lawful, WrittenByIndex, LookedUp, LookUp, Grown;
    LookUpOne(lib, store, toInsert[..next], toInsert[next], after);
    assert toInsert[..next + 1] == toInsert[..next] + [toInsert[next]];
  }

  lemma CheckingDecides(lib: Library, size: nat, start: Store, entries: seq<Entry>, batch: seq<Entry>, toInsert: seq<Entry>,
                        store: Store, after: Observed)
    requires SeparateIds(lib, entries) && Chosen(lib, size, start, entries, batch, toInsert)
    requires CheckingInv(lib, start, store, toInsert, |toInsert|, after)
    ensures Verify(lib, toInsert, after) == None && ReturnedInv(lib, size, start, entries, store)
  {
    assert toInsert[..|toInsert|] == toInsert;
    CheckSucceeds(lib, size, start, entries, batch, toInsert, store, after);
  }

  lemma CheckingSolo(lib: Library, size: nat, start: Store, entries: seq<Entry>, store: Store, call: Call, call': Call)
    requires Lawful(lib) && WrittenByIndex(lib, store) && SeparateIds(lib, entries)
    requires call.Checking? && SoloInv(lib, size, start, entries, store, call) && CheckingStep(lib, store, call, call')
    ensures SoloInv(lib, size, start, entries, store, call')
  {
    hide Lawful, WrittenByIndex, SeparateIds, CheckingInv, RaisedInv, ReturnedInv, Chosen, CheckingAnswered;
    if ReadFails(call, call') {
      CheckingBetween(lib, start, call.toInsert, store, call.next, call.after);
      WritingInterrupted(lib, size, start, entries, call.batch, call.toInsert, store, []);
    } else {
      CheckingAnswers(lib, size, start, entries, store, call, call');
    }
  }

  lemma CheckingBetween(lib: Library, start: Store, toInsert: seq<Entry>, store: Store, next: nat, after: Observed)
    requires CheckingInv(lib, start, store, toInsert, next, after)
    ensures Between(lib, start, toInsert, store)
  {
  }

  lemma CheckingAnswers(lib: Library, size: nat, start: Store, entries: seq<Entry>, store: Store, call: Call, call': Call)
    requires Lawful(lib) && WrittenByIndex(lib, store) && SeparateIds(lib, entries)
    requires call.Checking? && SoloInv(lib, size, start, entries, store, call) && CheckingAnswered(lib, store, call, call')
    ensures SoloInv(lib, size, start, entries, store, call')
  {
    hide Lawful, WrittenByIndex, SeparateIds, LookUp, Verify, CheckingInv, RaisedInv, ReturnedInv, Chosen;
    if call.next < |call.toInsert| {
      CheckingLooksUp(lib, start, store, call.toInsert, call.next, call.after);
    } else if call.next == |call.toInsert| {
      CheckingDecides(lib, size, start, entries, call.batch, call.toInsert, store, call.after);
    }
  }

  /** A write reported as failed may still land later. */
  lemma LateSolo(lib: Library, size: nat, start: Store, entries: seq<Entry>, store: Store, call: Call, store': Store)
    requires call.Raised? && SoloInv(lib, size, start, entries, store, call)
    requires exists k :: Applies(lib, store, store', call.late, k)
    ensures SoloInv(lib, size, start, entries, store', call)
  {
    var k: nat :| Applies(lib, store, store', call.late, k);
    assert call.late[k] in call.late;
    var i :| 0 <= i < |entries| && entries[i] == call.late[k];
    WriteOne(lib, start, entries, store, i);
  }

  lemma SoloStep(lib: Library, size: nat, start: Store, entries: seq<Entry>, store: Store, call: Call, store': Store, call': Call)
    requires Lawful(lib) && WrittenByIndex(lib, store) && SeparateIds(lib, entries)
    requires SoloInv(lib, size, start, entries, store, call) && CallStep(lib, size, store, call, store', call')
    ensures SoloInv(lib, size, start, entries, store', call')
  {
    hide SoloInv, PendingStep, ReadingStep, WritingStep, CheckingStep, Lawful, WrittenByIndex;
    match call {
      case Pending(_) =>
        StartsPending(lib, size, start, entries, store, call);
        PendingSolo(lib, size, start, entries, call');
      case Reading(_, _, _, _) =>
        StartsReading(lib, size, start, entries, store, call);
        ReadingSolo(lib, size, start, entries, call, call');
      case Writing(_, _, _, _) => WritingSolo(lib, size, start, entries, store, call, store', call');
      case Checking(_, _, _, _, _) => CheckingSolo(lib, size, start, entries, store, call, call');
      case Returned(_) => assert false;
      case Raised(_, _, _) => LateSolo(lib, size, start, entries, store, call, store');
    }
  }

  lemma StartsPending(lib: Library, size: nat, start: Store, entries: seq<Entry>, store: Store, call: Call)
    requires call.Pending? && SoloInv(lib, size, start, entries, store, call)
    ensures call == Pending(entries) && store == start
  {
  }

  lemma StartsReading(lib: Library, size: nat, start: Store, entries: seq<Entry>, store: Store, call: Call)
    requires call.Reading? && SoloInv(lib, size, start, entries, store, call)
    ensures store == start
  {
  }

  /** Everything the call may leave behind is still written by `index` only. */
  lemma SoloIsWritten(lib: Library, size: nat, start: Store, entries: seq<Entry>, store: Store, call: Call)
    requires WrittenByIndex(lib, start) && Valid(entries) && SoloInv(lib, size, start, entries, store, call)
    ensures Between(lib, start, entries, store) && WrittenByIndex(lib, store)
  {
    if call.Writing? || call.Checking? {
      BatchMembers(entries, call.batch);
      BetweenWhole(lib, start, entries, call.toInsert, store);
    }
    forall id | id in store ensures exists e :: Holds(lib, store, id, e) {
      if id in start {
        var e :| Holds(lib, start, id, e);
        assert Holds(lib, store, id, e);
      } else {
        assert NewFrom(lib, entries, id, store[id]);
        var e :| e in entries && IdOf(lib, e) == id && store[id] == ToPoint(lib, e);
        assert Holds(lib, store, id, e);
      }
    }
  }

  lemma {:induction false} SoloKeeps(lib: Library, size: nat, entries: seq<Entry>, stores: seq<Store>, calls: seq<Call>, i: nat)
    requires Lawful(lib) && SeparateIds(lib, entries) && SoloRun(lib, size, entries, stores, calls) && i < |calls|
    ensures SoloInv(lib, size, stores[0], entries, stores[i], calls[i])
    ensures Between(lib, stores[0], entries, stores[i]) && WrittenByIndex(lib, stores[i])
  {
    hide Lawful, WrittenByIndex, CallStep;
    if i > 0 {
      SoloKeeps(lib, size, entries, stores, calls, i - 1);
      SoloStep(lib, size, stores[0], entries, stores[i - 1], calls[i - 1], stores[i], calls[i]);
    }
    hide SoloInv;
    if i == 0 {
      SoloStarts(lib, size, entries, stores[0]);
    }
    SoloIsWritten(lib, size, stores[0], entries, stores[i], calls[i]);
  }

  lemma SoloStarts(lib: Library, size: nat, entries: seq<Entry>, start: Store)
    ensures SoloInv(lib, size, start, entries, start, Pending(entries))
  {
  }

  /**
   * Whatever order the lookups and the writes took, a call left alone ends as the undisturbed call says:
   * returning leaves exactly its collection, and a refusal is its refusal, with nothing written.
   */
  lemma SoloRunIsIndexAlone(lib: Library, size: nat, entries: seq<Entry>, stores: seq<Store>, calls: seq<Call>, i: nat)
    requires Lawful(lib) && SeparateIds(lib, entries) && SoloRun(lib, size, entries, stores, calls) && i < |calls|
    ensures calls[i].Returned? ==> IndexAlone(lib, size, stores[0], entries) == Outcome(Ok(()), stores[i])
    ensures calls[i].Raised? && calls[i].error != DependencyUnavailable ==>
              IndexAlone(lib, size, stores[0], entries) == Outcome(Err(calls[i].error), stores[i])
  {
    hide Lawful, WrittenByIndex, CallStep, SoloInv, SeparateIds, IndexAlone;
    SoloKeeps(lib, size, entries, stores, calls, i);
    SoloEnds(lib, size, stores[0], entries, stores[i], calls[i]);
  }

  lemma SoloEnds(lib: Library, size: nat, start: Store, entries: seq<Entry>, store: Store, call: Call)
    requires Lawful(lib) && SeparateIds(lib, entries) && WrittenByIndex(lib, start) && Valid(entries)
    requires SoloInv(lib, size, start, entries, store, call)
    ensures call.Returned? ==> IndexAlone(lib, size, start, entries) == Outcome(Ok(()), store)
    ensures call.Raised? && call.error != DependencyUnavailable ==>
              IndexAlone(lib, size, start, entries) == Outcome(Err(call.error), store)
  {
    hide IndexAlone, Lawful, WrittenByIndex, Dimensioned, Agrees, Grown, SeparateIds;
    IndexAloneMeaning(lib, size, start, entries);
    if call.Returned? {
      CleanIsUnique(lib, start, entries, IndexAlone(lib, size, start, entries).store, store);
    }
  }

  lemma CleanIsUnique(lib: Library, start: Store, entries: seq<Entry>, clean: Store, store: Store)
    requires Consistent(entries) && SeparateIds(lib, entries)
    requires Grown(lib, start, entries, clean) && Grown(lib, start, entries, store)
    ensures clean == store
  {
    GrownUnique(lib, start, start, entries, clean, store);
  }

  /** However far a call left alone got, and whatever lands late, calling again finishes the job of one clean call. */
  lemma AnyInterruptionIsRetried(lib: Library, size: nat, entries: seq<Entry>, stores: seq<Store>, calls: seq<Call>,
                                 i: nat, clean: Store)
    requires Lawful(lib) && SeparateIds(lib, entries) && SoloRun(lib, size, entries, stores, calls) && i < |calls|
    requires IndexAlone(lib, size, stores[0], entries) == Outcome(Ok(()), clean)
    ensures Extends(stores[0], stores[i]) && Extends(stores[i], clean)
    ensures IndexAlone(lib, size, stores[i], entries) == Outcome(Ok(()), clean)
  {
    SoloKeeps(lib, size, entries, stores, calls, i);
    IndexAloneMeaning(lib, size, stores[0], entries);
    hide IndexAlone, Lawful, WrittenByIndex, CallStep;
    PartOfClean(lib, stores[0], entries, stores[i], clean);
    RetryConverges(lib, size, stores[0], entries, stores[i], clean);
  }

  lemma PartOfClean(lib: Library, start: Store, entries: seq<Entry>, part: Store, clean: Store)
    requires Consistent(entries) && SeparateIds(lib, entries)
    requires Between(lib, start, entries, part) && Grown(lib, start, entries, clean)
    ensures Extends(part, clean)
  {
    forall id | id in part ensures id in clean && clean[id] == part[id] {
      if id !in start {
        assert NewFrom(lib, entries, id, part[id]);
        assert NewFrom(lib, entries, id, clean[id]);
      }
    }
  }
}
