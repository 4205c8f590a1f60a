/** What an error of an `index()` call means in an interleaving: a refusal is deserved, unavailability is the backend's. */
module VectorIndexErrors {
  import opened Wrappers
  import opened VectorPayload
  import opened VectorIndex
  import opened VectorIndexAlone
  import opened VectorIndexProtocol

  /** Another content is stored under the entry's id. */
  ghost predicate Differs(lib: Library, store: Store, e: Entry) {
    IdOf(lib, e) in store && StoredFingerprint(store, IdOf(lib, e)) != Some(lib.fingerprint(e))
  }

  ghost predicate SomeDiffers(lib: Library, store: Store, entries: seq<Entry>) {
    exists e :: e in entries && Differs(lib, store, e)
  }

  /** What has to be true of a batch refused with this error. */
  ghost predicate Deserved(lib: Library, size: nat, store: Store, entries: seq<Entry>, error: AppError) {
    match error
    case Conflict => !Consistent(entries) || SomeDiffers(lib, store, entries)
    case InvalidRequest => Consistent(entries) && exists e :: e in entries && |e.vector| != size
    case DependencyUnavailable => true
    case NotFound => false
  }

  ghost predicate CheckingHolds(lib: Library, store: Store, entries: seq<Entry>, toInsert: seq<Entry>, next: nat,
                                after: Observed) {
    && (forall e :: e in toInsert ==> e in entries && IdOf(lib, e) in store)
    && next <= |toInsert| && (forall k :: 0 <= k < next ==> IdOf(lib, toInsert[k]) in after)
  }

  /** What a call in progress knows of its own writes and lookups. */
  ghost predicate Progress(lib: Library, size: nat, store: Store, call: Call) {
    match call
    case Pending(_) => true
    case Reading(_, _, _, _) => true
    case Writing(entries, _, toInsert, applied) =>
      && (forall e :: e in toInsert ==> e in entries)
      && (forall k :: k in applied && k < |toInsert| ==> IdOf(lib, toInsert[k]) in store)
    case Checking(entries, _, toInsert, next, after) => CheckingHolds(lib, store, entries, toInsert, next, after)
    case Returned(_) => true
    case Raised(entries, error, _) => Deserved(lib, size, store, entries, error)
  }

  lemma ProgressStable(lib: Library, size: nat, store: Store, later: Store, call: Call)
    requires Progress(lib, size, store, call) && Extends(store, later)
    ensures Progress(lib, size, later, call)
  {
    if call.Raised? && SomeDiffers(lib, store, call.entries) {
      var e :| e in call.entries && Differs(lib, store, e);
      assert Differs(lib, later, e);
    }
  }

  lemma {:induction false} ConflictIsSeen(lib: Library, store: Store, batch: seq<Entry>, observed: Observed)
    requires Sound(observed, store)
    ensures ToInsert(lib, batch, observed).Err? ==>
              ToInsert(lib, batch, observed) == Err(Conflict) && SomeDiffers(lib, store, batch)
  {
    if batch != [] {
      var front, last := batch[..|batch| - 1], batch[|batch| - 1];
      ConflictIsSeen(lib, store, front, observed);
      assert batch == front + [last];
      if ToInsert(lib, front, observed).Err? {
        DiffersInLonger(lib, store, front, [last]);
      } else if Compare(lib, last, observed, ToInsert(lib, front, observed).value).Err? {
        assert last in batch && Differs(lib, store, last);
      }
    }
  }

  lemma DiffersInLonger(lib: Library, store: Store, front: seq<Entry>, more: seq<Entry>)
    requires SomeDiffers(lib, store, front)
    ensures SomeDiffers(lib, store, front + more)
  {
    var e :| e in front && Differs(lib, store, e);
    assert e in front + more;
  }

  /** The check after writing can only fail on a differing content, once every id has been found. */
  lemma {:induction false} CheckIsSeen(lib: Library, store: Store, entries: seq<Entry>, after: Observed)
    requires Sound(after, store) && forall e :: e in entries ==> IdOf(lib, e) in after
    ensures Verify(lib, entries, after).Some? ==>
              Verify(lib, entries, after) == Some(Conflict) && SomeDiffers(lib, store, entries)
  {
    if entries != [] {
      var front, last := entries[..|entries| - 1], entries[|entries| - 1];
      CheckIsSeen(lib, store, front, after);
      assert entries == front + [last];
      assert last in entries;
      if Verify(lib, front, after).Some? {
        DiffersInLonger(lib, store, front, [last]);
      } else if VerifyEntry(lib, last, after).Some? {
        assert Differs(lib, store, last);
      }
    }
  }

  lemma DiffersInSupplied(lib: Library, store: Store, some: seq<Entry>, entries: seq<Entry>)
    requires SomeDiffers(lib, store, some) && forall e :: e in some ==> e in entries
    ensures SomeDiffers(lib, store, entries)
  {
    var e :| e in some && Differs(lib, store, e);
  }

  /** The call has given up for want of the backend. */
  predicate Unavailable(call: Call) {
    call.Raised? && call.error == DependencyUnavailable
  }

  lemma PendingProgress(lib: Library, size: nat, store: Store, call: Call, call': Call)
    requires call.Pending? && PendingStep(lib, size, call, call')
    ensures Progress(lib, size, store, call') && !Unavailable(call')
  {
    CoalesceMeaning(call.entries);
  }

  lemma ReadingEnds(lib: Library, store: Store, entries: seq<Entry>, batch: seq<Entry>, existing: Observed)
    requires Sound(existing, store) && Coalesced(entries, batch)
    ensures match ToInsert(lib, batch, existing)
            case Ok(toInsert) => forall e :: e in toInsert ==> e in entries
            case Err(error) => error == Conflict && SomeDiffers(lib, store, entries)
  {
    BatchIsEntries(entries, batch);
    ConflictIsSeen(lib, store, batch, existing);
    hide Sound, Differs, ToInsert, Coalesced;
    if ToInsert(lib, batch, existing).Ok? {
      ComparedOrPending(lib, store, batch, existing);
    } else {
      DiffersInSupplied(lib, store, batch, entries);
    }
  }

  lemma ReadingProgress(lib: Library, size: nat, store: Store, call: Call, call': Call)
    requires Lawful(lib) && WrittenByIndex(lib, store) && CallInv(lib, store, call)
    requires call.Reading? && ReadingAnswered(lib, store, call, call')
    ensures Progress(lib, size, store, call') && !Unavailable(call')
  {
    hide Lawful, WrittenByIndex, SomeDiffers, Sound, Coalesced, ToInsert, LookUp;
    if call.next < |call.batch| {
      LookUpSound(lib, store, IdOf(lib, call.batch[call.next]), call.existing);
    } else {
      ReadingEnds(lib, store, call.entries, call.batch, call.existing);
    }
  }

  lemma WritingProgress(lib: Library, size: nat, store: Store, call: Call, store': Store, call': Call)
    requires Progress(lib, size, store, call) && call.Writing? && WritingAnswered(lib, store, call, store', call')
    ensures Progress(lib, size, store', call') && !Unavailable(call')
  {
    if call'.Checking? {
      forall e | e in call.toInsert ensures IdOf(lib, e) in store {
        var k: nat :| k < |call.toInsert| && call.toInsert[k] == e;
        assert k in call.applied;
      }
    }
  }

  lemma LookedUpOne(lib: Library, store: Store, id: string, observed: Observed)
    requires Lawful(lib) && WrittenByIndex(lib, store) && id in store
    ensures LookUp(lib, store, id, observed).Ok? && id in LookUp(lib, store, id, observed).value
    ensures forall other :: other in observed ==> other in LookUp(lib, store, id, observed).value
  {
    StoredParses(lib, store, id);
  }

  lemma CheckingLooks(lib: Library, store: Store, entries: seq<Entry>, toInsert: seq<Entry>, next: nat, after: Observed)
    requires Lawful(lib) && WrittenByIndex(lib, store)
    requires CheckingHolds(lib, store, entries, toInsert, next, after) && next < |toInsert|
    ensures var found := LookUp(lib, store, IdOf(lib, toInsert[next]), after);
            found.Ok? && CheckingHolds(lib, store, entries, toInsert, next + 1, found.value)
  {
    assert toInsert[next] in toInsert;
    LookedUpOne(lib, store, IdOf(lib, toInsert[next]), after);
    hide Lawful, WrittenByIndex, LookUp;
  }

  lemma CheckingEnds(lib: Library, store: Store, entries: seq<Entry>, toInsert: seq<Entry>, after: Observed)
    requires Sound(after, store) && CheckingHolds(lib, store, entries, toInsert, |toInsert|, after)
    ensures Verify(lib, toInsert, after).Some? ==>
              Verify(lib, toInsert, after) == Some(Conflict) && SomeDiffers(lib, store, entries)
  {
    CheckIsSeen(lib, store, toInsert, after);
    hide Verify, Sound, Differs;
    if Verify(lib, toInsert, after).Some? {
      DiffersInSupplied(lib, store, toInsert, entries);
    }
  }

  lemma CheckingProgress(lib: Library, size: nat, store: Store, call: Call, call': Call)
    requires Lawful(lib) && WrittenByIndex(lib, store) && CallInv(lib, store, call) && Progress(lib, size, store, call)
    requires call.Checking? && CheckingAnswered(lib, store, call, call')
    ensures Progress(lib, size, store, call') && !Unavailable(call')
  {
    hide Lawful, WrittenByIndex, SomeDiffers, Sound, CheckingHolds, Verify, LookUp;
    if call.next < |call.toInsert| {
      CheckingLooks(lib, store, call.entries, call.toInsert, call.next, call.after);
    } else {
      CheckingEnds(lib, store, call.entries, call.toInsert, call.after);
    }
  }

  /** An answered step keeps the progress and never ends in unavailability. */
  lemma AnsweredProgress(lib: Library, size: nat, store: Store, call: Call, store': Store, call': Call)
    requires Lawful(lib) && WrittenByIndex(lib, store) && CallInv(lib, store, call) && Progress(lib, size, store, call)
    requires Answered(lib, size, store, call, store', call') && Extends(store, store')
    ensures Progress(lib, size, store', call')
    ensures !Unavailable(call) ==> !Unavailable(call')
  {
    hide Lawful, WrittenByIndex, CallInv, Progress, Extends, PendingStep, ReadingAnswered, WritingAnswered, CheckingAnswered;
    match call
    case Pending(_) => PendingProgress(lib, size, store, call, call');
    case Reading(_, _, _, _) => ReadingProgress(lib, size, store, call, call');
    case Writing(_, _, _, _) => WritingProgress(lib, size, store, call, store', call');
    case Checking(_, _, _, _, _) => CheckingProgress(lib, size, store, call, call');
    case Raised(_, _, _) => ProgressStable(lib, size, store, store', call);
  }

  lemma CallStepProgress(lib: Library, size: nat, store: Store, call: Call, store': Store, call': Call)
    requires Lawful(lib) && WrittenByIndex(lib, store) && CallInv(lib, store, call) && Progress(lib, size, store, call)
    requires CallStep(lib, size, store, call, store', call') && Extends(store, store')
    ensures Progress(lib, size, store', call')
  {
    hide Lawful, WrittenByIndex, CallInv, Extends, PendingStep, ReadingAnswered, WritingAnswered, CheckingAnswered, Deserved;
    if Answered(lib, size, store, call, store', call') {
      AnsweredProgress(lib, size, store, call, store', call');
    } else {
      Excused(lib, size, store', call.entries);
    }
  }

  lemma Excused(lib: Library, size: nat, store: Store, entries: seq<Entry>)
    ensures Deserved(lib, size, store, entries, DependencyUnavailable)
  {
  }

  ghost predicate AllProgress(lib: Library, size: nat, s: System) {
    forall c :: c in s.calls ==> Progress(lib, size, s.store, s.calls[c])
  }

  lemma StepProgress(lib: Library, size: nat, s: System, s': System)
    requires Lawful(lib) && Inv(lib, s) && AllProgress(lib, size, s) && Step(lib, size, s, s')
    ensures AllProgress(lib, size, s')
  {
    StepKeeps(lib, size, s, s');
    hide Lawful, WrittenByIndex, CallInv, CallStep, Extends;
    forall d | d in s'.calls ensures Progress(lib, size, s'.store, s'.calls[d]) {
      if d in s.calls && s'.calls[d] == s.calls[d] {
        ProgressStable(lib, size, s.store, s'.store, s.calls[d]);
      } else if d in s.calls {
        assert Moves(lib, size, s, s', d);
        CallStepProgress(lib, size, s.store, s.calls[d], s'.store, s'.calls[d]);
      }
    }
  }

  lemma {:induction false} RunProgress(lib: Library, size: nat, run: seq<System>, i: nat)
    requires Lawful(lib) && IsRun(lib, size, run) && i < |run|
    ensures AllProgress(lib, size, run[i])
  {
    hide Lawful, Step, Inv, Progress;
    if i > 0 {
      RunProgress(lib, size, run, i - 1);
      RunKeeps(lib, size, run, i - 1);
      assert Step(lib, size, run[i - 1], run[i - 1 + 1]);
      StepProgress(lib, size, run[i - 1], run[i]);
    }
  }

  // ---------- main results ----------

  /**
   * In every interleaving a refusal is deserved, when it is raised and in every later state: a conflict
   * means the supplied entries disagree with each other or one of them with what is stored, an invalid
   * request that their dimensions do not fit.
   */
  lemma RefusalsAreDeserved(lib: Library, size: nat, run: seq<System>, i: nat, j: nat, c: nat)
    requires Lawful(lib) && IsRun(lib, size, run) && i <= j < |run|
    requires c in run[i].calls && run[i].calls[c].Raised?
    ensures Deserved(lib, size, run[j].store, run[i].calls[c].entries, run[i].calls[c].error)
  {
    RunProgress(lib, size, run, i);
    StoredPointsNeverChange(lib, size, run, i, j);
    ProgressStable(lib, size, run[i].store, run[j].store, run[i].calls[c]);
  }

  /** In each of the first `i` steps the call rests, arrives, or moves without a backend failure. */
  ghost predicate NeverFailed(lib: Library, size: nat, run: seq<System>, i: nat, c: nat)
    requires i < |run|
  {
    forall k :: 0 <= k < i && c in run[k].calls ==> Unhindered(lib, size, run[k], run[k + 1], c)
  }

  ghost predicate Unhindered(lib: Library, size: nat, s: System, s': System, c: nat)
    requires c in s.calls
  {
    c in s'.calls && (s'.calls[c] == s.calls[c] || Answered(lib, size, s.store, s.calls[c], s'.store, s'.calls[c]))
  }

  /** A call whose backend never fails is never unavailable, whatever the other calls and their backends do. */
  lemma {:induction false} UnfailedNeverUnavailable(lib: Library, size: nat, run: seq<System>, i: nat, c: nat)
    requires Lawful(lib) && IsRun(lib, size, run) && i < |run| && NeverFailed(lib, size, run, i, c)
    ensures c in run[i].calls ==> !Unavailable(run[i].calls[c])
  {
    hide Lawful, Answered, Inv, AllProgress;
    if i > 0 {
      UnfailedNeverUnavailable(lib, size, run, i - 1, c);
      RunKeeps(lib, size, run, i - 1);
      RunProgress(lib, size, run, i - 1);
      assert Step(lib, size, run[i - 1], run[i - 1 + 1]);
      StepUnfailed(lib, size, run[i - 1], run[i], c);
    }
  }

  lemma StepUnfailed(lib: Library, size: nat, s: System, s': System, c: nat)
    requires Lawful(lib) && Inv(lib, s) && AllProgress(lib, size, s) && Step(lib, size, s, s')
    requires c in s.calls ==> Unhindered(lib, size, s, s', c) && !Unavailable(s.calls[c])
    ensures c in s'.calls ==> !Unavailable(s'.calls[c])
  {
    StepKeeps(lib, size, s, s');
    hide Lawful, WrittenByIndex, CallInv, CallStep, Extends, Progress, Answered;
    if c in s.calls && s'.calls[c] != s.calls[c] {
      AnsweredProgress(lib, size, s.store, s.calls[c], s'.store, s'.calls[c]);
    }
  }
}
