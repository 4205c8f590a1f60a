/**
 * Any number of `index()` calls on one collection, interleaved at every lookup and every point write.
 *
 * Each backend read looks up one id at a time, and each insert lands on its own and in any order. The
 * backend may fail in any read or write; an upsert reported as failed may still land later.
 */
module VectorIndexProtocol {
  import opened Wrappers
  import opened VectorPayload
  import opened VectorIndex
  import opened VectorIndexAlone

  /** Where one call stands. `entries` is what the caller supplied, `batch` its coalesced form. */
  datatype Call =
    | Pending(entries: seq<Entry>)
    | Reading(entries: seq<Entry>, batch: seq<Entry>, next: nat, existing: Observed)
    | Writing(entries: seq<Entry>, batch: seq<Entry>, toInsert: seq<Entry>, applied: set<nat>)
    | Checking(entries: seq<Entry>, batch: seq<Entry>, toInsert: seq<Entry>, next: nat, after: Observed)
    | Returned(entries: seq<Entry>)
    | Raised(entries: seq<Entry>, error: AppError, late: seq<Entry>)

  datatype System = System(store: Store, calls: map<nat, Call>)

  /** One lookup inside a retrieval. */
  function LookUp(lib: Library, store: Store, id: string, observed: Observed): Result<Observed, AppError> {
    if id !in store || id in observed then Ok(observed)
    else
      var stored :- ParseStoredPoint(lib, Record(id, Some(store[id].payload)));
      Ok(observed[stored.pointId := stored])
  }

  ghost predicate PendingStep(lib: Library, size: nat, call: Call, call': Call)
    requires call.Pending?
  {
    if call.entries == [] then call' == Returned([])
    else
      match Coalesce(call.entries)
      case Err(e) => call' == Raised(call.entries, e, [])
      case Ok(batch) =>
        call' == if Dimensioned(batch, size) then Reading(call.entries, batch, 0, map[])
                 else Raised(call.entries, InvalidRequest, [])
  }

  /** The backend fails a read. */
  ghost predicate ReadFails(call: Call, call': Call) {
    call' == Raised(call.entries, DependencyUnavailable, [])
  }

  ghost predicate ReadingStep(lib: Library, store: Store, call: Call, call': Call)
    requires call.Reading?
  {
    ReadFails(call, call') || ReadingAnswered(lib, store, call, call')
  }

  ghost predicate ReadingAnswered(lib: Library, store: Store, call: Call, call': Call)
    requires call.Reading?
  {
    || (call.next < |call.batch| &&
        match LookUp(lib, store, IdOf(lib, call.batch[call.next]), call.existing)
        case Ok(existing) => call' == call.(next := call.next + 1, existing := existing)
        case Err(e) => call' == Raised(call.entries, e, []))
    || (call.next == |call.batch| &&
        match ToInsert(lib, call.batch, call.existing)
        case Err(e) => call' == Raised(call.entries, e, [])
        case Ok(toInsert) =>
          call' == if toInsert == [] then Returned(call.entries)
                   else Writing(call.entries, call.batch, toInsert, {}))
  }

  ghost predicate Applies(lib: Library, store: Store, store': Store, entries: seq<Entry>, k: nat) {
    k < |entries| && store' == InsertPoint(lib, store, entries[k])
  }

  ghost predicate WritingStep(lib: Library, store: Store, call: Call, store': Store, call': Call)
    requires call.Writing?
  {
    || WritingAnswered(lib, store, call, store', call')
    || (store' == store && call' == Raised(call.entries, DependencyUnavailable, call.toInsert))
  }

  ghost predicate WritingAnswered(lib: Library, store: Store, call: Call, store': Store, call': Call)
    requires call.Writing?
  {
    || (exists k :: k !in call.applied && Applies(lib, store, store', call.toInsert, k)
                    && call' == call.(applied := call.applied + {k}))
    || (store' == store && (forall k: nat :: k < |call.toInsert| ==> k in call.applied)
        && call' == Checking(call.entries, call.batch, call.toInsert, 0, map[]))
  }

  ghost predicate CheckingStep(lib: Library, store: Store, call: Call, call': Call)
    requires call.Checking?
  {
    ReadFails(call, call') || CheckingAnswered(lib, store, call, call')
  }

  ghost predicate CheckingAnswered(lib: Library, store: Store, call: Call, call': Call)
    requires call.Checking?
  {
    || (call.next < |call.toInsert| &&
        match LookUp(lib, store, IdOf(lib, call.toInsert[call.next]), call.after)
        case Ok(after) => call' == call.(next := call.next + 1, after := after)
        case Err(e) => call' == Raised(call.entries, e, []))
    || (call.next == |call.toInsert| &&
        match Verify(lib, call.toInsert, call.after)
        case Some(e) => call' == Raised(call.entries, e, [])
        case None => call' == Returned(call.entries))
  }

  ghost predicate CallStep(lib: Library, size: nat, store: Store, call: Call, store': Store, call': Call) {
    match call
    case Pending(_) => store' == store && PendingStep(lib, size, call, call')
    case Reading(_, _, _, _) => store' == store && ReadingStep(lib, store, call, call')
    case Writing(_, _, _, _) => WritingStep(lib, store, call, store', call')
    case Checking(_, _, _, _, _) => store' == store && CheckingStep(lib, store, call, call')
    case Returned(_) => false
    case Raised(_, _, late) => call' == call && exists k :: Applies(lib, store, store', late, k)
  }

  /** A step of a call in which the backend does not fail. */
  ghost predicate Answered(lib: Library, size: nat, store: Store, call: Call, store': Store, call': Call) {
    match call
    case Pending(_) => store' == store && PendingStep(lib, size, call, call')
    case Reading(_, _, _, _) => store' == store && ReadingAnswered(lib, store, call, call')
    case Writing(_, _, _, _) => WritingAnswered(lib, store, call, store', call')
    case Checking(_, _, _, _, _) => store' == store && CheckingAnswered(lib, store, call, call')
    case Returned(_) => false
    case Raised(_, _, late) => call' == call && exists k :: Applies(lib, store, store', late, k)
  }

  ghost predicate Valid(entries: seq<Entry>) {
    forall e :: e in entries ==> ValidEntry(e)
  }

  /** A new call arrives, or a call in progress moves. */
  ghost predicate Step(lib: Library, size: nat, s: System, s': System) {
    || (exists c, entries :: Arrives(s, s', c, entries))
    || (exists c :: Moves(lib, size, s, s', c))
  }

  ghost predicate Arrives(s: System, s': System, c: nat, entries: seq<Entry>) {
    c !in s.calls && Valid(entries) && s' == s.(calls := s.calls[c := Pending(entries)])
  }

  ghost predicate Moves(lib: Library, size: nat, s: System, s': System, c: nat) {
    && c in s.calls && c in s'.calls && s'.calls == s.calls[c := s'.calls[c]]
    && CallStep(lib, size, s.store, s.calls[c], s'.store, s'.calls[c])
  }

  /** A run starts with no calls on a collection that only `index` has written. */
  ghost predicate IsRun(lib: Library, size: nat, run: seq<System>) {
    && run != [] && WrittenByIndex(lib, run[0].store) && run[0].calls == map[]
    && forall i :: 0 <= i < |run| - 1 ==> Step(lib, size, run[i], run[i + 1])
  }

  // ---------- the invariant ----------

  /** The entry is stored under its id with its own fingerprint. */
  ghost predicate Kept(lib: Library, store: Store, e: Entry) {
    IdOf(lib, e) in store && StoredFingerprint(store, IdOf(lib, e)) == Some(lib.fingerprint(e))
  }

  /** What was observed is still there. */
  ghost predicate Sound(observed: Observed, store: Store) {
    forall id :: id in observed ==> id in store && Some(observed[id].fingerprint) == StoredFingerprint(store, id)
  }

  ghost predicate KeptUnless(lib: Library, store: Store, batch: seq<Entry>, pending: seq<Entry>) {
    forall e :: e in batch ==> e in pending || Kept(lib, store, e)
  }

  ghost predicate Coalesced(entries: seq<Entry>, batch: seq<Entry>) {
    Coalesce(entries) == Ok(batch)
  }

  ghost predicate CallInv(lib: Library, store: Store, call: Call) {
    && Valid(call.entries)
    && match call
       case Pending(_) => true
       case Reading(entries, batch, _, existing) => Coalesced(entries, batch) && Sound(existing, store)
       case Writing(entries, batch, toInsert, _) =>
         Coalesced(entries, batch) && Valid(toInsert) && KeptUnless(lib, store, batch, toInsert)
       case Checking(entries, batch, toInsert, _, after) =>
         Coalesced(entries, batch) && KeptUnless(lib, store, batch, toInsert) && Sound(after, store)
       case Returned(entries) => forall e :: e in entries ==> Kept(lib, store, e)
       case Raised(_, _, late) => Valid(late)
  }

  ghost predicate Inv(lib: Library, s: System) {
    WrittenByIndex(lib, s.store) && forall c :: c in s.calls ==> CallInv(lib, s.store, s.calls[c])
  }

  /** Nothing a call relies on is undone by later writes. */
  lemma CallInvStable(lib: Library, store: Store, later: Store, call: Call)
    requires CallInv(lib, store, call) && Extends(store, later)
    ensures CallInv(lib, later, call)
  {
    assert forall e :: Kept(lib, store, e) ==> Kept(lib, later, e);
  }

  lemma InsertKeepsWritten(lib: Library, store: Store, e: Entry)
    requires WrittenByIndex(lib, store) && ValidEntry(e)
    ensures WrittenByIndex(lib, InsertPoint(lib, store, e)) && Extends(store, InsertPoint(lib, store, e))
  {
    var later := InsertPoint(lib, store, e);
    forall id | id in later ensures exists x :: Holds(lib, later, id, x) {
      if id in store {
        var x :| Holds(lib, store, id, x);
        assert Holds(lib, later, id, x);
      } else {
        assert Holds(lib, later, id, e);
      }
    }
  }

  /** Over a collection written by `index`, a lookup never finds a malformed point. */
  lemma LookUpSound(lib: Library, store: Store, id: string, observed: Observed)
    requires Lawful(lib) && WrittenByIndex(lib, store) && Sound(observed, store)
    ensures LookUp(lib, store, id, observed).Ok?
    ensures Sound(LookUp(lib, store, id, observed).value, store)
  {
    hide Lawful, WrittenByIndex, ParseStoredPoint, StoredFingerprint;
    if id in store && id !in observed {
      StoredParses(lib, store, id);
    }
  }

  lemma StoredParses(lib: Library, store: Store, id: string)
    requires Lawful(lib) && WrittenByIndex(lib, store) && id in store
    ensures var parsed := ParseStoredPoint(lib, Record(id, Some(store[id].payload)));
            parsed.Ok? && parsed.value.pointId == id && Some(parsed.value.fingerprint) == StoredFingerprint(store, id)
  {
    hide Lawful, WrittenByIndex, ParseStoredPoint, StoredFingerprint, Holds;
    var e := StoredReadsBack(lib, store, id);
  }

  lemma {:induction false} ComparedOrPending(lib: Library, store: Store, batch: seq<Entry>, observed: Observed)
    requires Sound(observed, store) && ToInsert(lib, batch, observed).Ok?
    ensures KeptUnless(lib, store, batch, ToInsert(lib, batch, observed).value)
    ensures forall e :: e in ToInsert(lib, batch, observed).value ==> e in batch
  {
    hide Sound, Kept, Compare;
    if batch != [] {
      var front, last := batch[..|batch| - 1], batch[|batch| - 1];
      ComparedOrPending(lib, store, front, observed);
      ComparedOne(lib, store, last, observed, ToInsert(lib, front, observed).value);
      assert batch == front + [last];
    }
  }

  lemma ComparedOne(lib: Library, store: Store, e: Entry, observed: Observed, sofar: seq<Entry>)
    requires Sound(observed, store) && Compare(lib, e, observed, sofar).Ok?
    ensures var chosen := Compare(lib, e, observed, sofar).value;
            chosen == sofar + [e] || (chosen == sofar && Kept(lib, store, e))
  {
  }

  lemma {:induction false} VerifiedIsKept(lib: Library, store: Store, entries: seq<Entry>, after: Observed)
    requires Sound(after, store) && Verify(lib, entries, after) == None
    ensures forall e :: e in entries ==> Kept(lib, store, e)
  {
    hide Sound, Kept;
    if entries != [] {
      var front, last := entries[..|entries| - 1], entries[|entries| - 1];
      VerifiedIsKept(lib, store, front, after);
      VerifiedEntryIsKept(lib, store, last, after);
      assert entries == front + [last];
    }
  }

  lemma VerifiedEntryIsKept(lib: Library, store: Store, e: Entry, after: Observed)
    requires Sound(after, store) && VerifyEntry(lib, e, after) == None
    ensures Kept(lib, store, e)
  {
  }

  /** A coalesced batch holds exactly the supplied entries. */
  lemma BatchIsEntries(entries: seq<Entry>, batch: seq<Entry>)
    requires Coalesced(entries, batch)
    ensures forall e :: e in batch <==> e in entries
  {
    CoalesceMeaning(entries);
  }

  lemma PendingKeeps(lib: Library, size: nat, store: Store, call: Call, call': Call)
    requires CallInv(lib, store, call) && call.Pending? && PendingStep(lib, size, call, call')
    ensures CallInv(lib, store, call')
  {
  }

  lemma ReadingKeeps(lib: Library, store: Store, call: Call, call': Call)
    requires Lawful(lib) && WrittenByIndex(lib, store)
    requires CallInv(lib, store, call) && call.Reading? && ReadingStep(lib, store, call, call')
    ensures CallInv(lib, store, call')
  {
    BatchIsEntries(call.entries, call.batch);
    if call.next < |call.batch| {
      LookUpSound(lib, store, IdOf(lib, call.batch[call.next]), call.existing);
    } else if ToInsert(lib, call.batch, call.existing).Ok? {
      ComparedOrPending(lib, store, call.batch, call.existing);
    }
  }

  lemma CheckingKeeps(lib: Library, store: Store, call: Call, call': Call)
    requires Lawful(lib) && WrittenByIndex(lib, store)
    requires CallInv(lib, store, call) && call.Checking? && CheckingStep(lib, store, call, call')
    ensures CallInv(lib, store, call')
  {
    BatchIsEntries(call.entries, call.batch);
    if call.next < |call.toInsert| {
      LookUpSound(lib, store, IdOf(lib, call.toInsert[call.next]), call.after);
    } else if Verify(lib, call.toInsert, call.after) == None {
      VerifiedIsKept(lib, store, call.toInsert, call.after);
    }
  }

  lemma AppliesKeeps(lib: Library, store: Store, store': Store, entries: seq<Entry>, k: nat)
    requires WrittenByIndex(lib, store) && Valid(entries) && Applies(lib, store, store', entries, k)
    ensures WrittenByIndex(lib, store') && Extends(store, store')
  {
    assert entries[k] in entries;
    InsertKeepsWritten(lib, store, entries[k]);
  }

  lemma WritingKeeps(lib: Library, store: Store, call: Call, store': Store, call': Call)
    requires WrittenByIndex(lib, store)
    requires CallInv(lib, store, call) && call.Writing? && WritingStep(lib, store, call, store', call')
    ensures WrittenByIndex(lib, store') && Extends(store, store') && CallInv(lib, store', call')
  {
    if k :| k !in call.applied && Applies(lib, store, store', call.toInsert, k)
            && call' == call.(applied := call.applied + {k}) {
      AppliesKeeps(lib, store, store', call.toInsert, k);
      CallInvStable(lib, store, store', call);
    }
  }

  lemma StepKeepsEntries(lib: Library, size: nat, store: Store, call: Call, store': Store, call': Call)
    requires CallStep(lib, size, store, call, store', call')
    ensures call'.entries == call.entries
  {
    hide Coalesce, Dimensioned, LookUp, ToInsert, Verify, Applies;
  }

  lemma LateIsValid(lib: Library, store: Store, call: Call)
    requires CallInv(lib, store, call) && call.Raised?
    ensures Valid(call.late)
  {
  }

  lemma CallStepKeeps(lib: Library, size: nat, store: Store, call: Call, store': Store, call': Call)
    requires Lawful(lib) && WrittenByIndex(lib, store) && CallInv(lib, store, call)
    requires CallStep(lib, size, store, call, store', call')
    ensures WrittenByIndex(lib, store') && Extends(store, store') && CallInv(lib, store', call')
    ensures call'.entries == call.entries
  {
    StepKeepsEntries(lib, size, store, call, store', call');
    hide Lawful, WrittenByIndex, CallInv, PendingStep, ReadingStep, WritingStep, CheckingStep;
    match call
    case Pending(_) => PendingKeeps(lib, size, store, call, call');
    case Reading(_, _, _, _) => ReadingKeeps(lib, store, call, call');
    case Writing(_, _, _, _) => WritingKeeps(lib, store, call, store', call');
    case Checking(_, _, _, _, _) => CheckingKeeps(lib, store, call, call');
    case Raised(_, _, late) =>
      LateIsValid(lib, store, call);
      var k :| Applies(lib, store, store', late, k);
      AppliesKeeps(lib, store, store', late, k);
      CallInvStable(lib, store, store', call);
  }

  /** Every step keeps the invariant and every stored point. */
  lemma StepKeeps(lib: Library, size: nat, s: System, s': System)
    requires Lawful(lib) && Inv(lib, s) && Step(lib, size, s, s')
    ensures Inv(lib, s') && Extends(s.store, s'.store)
    ensures forall c :: c in s.calls ==> c in s'.calls && s'.calls[c].entries == s.calls[c].entries
  {
    if c :| Moves(lib, size, s, s', c) {
      CallStepKeeps(lib, size, s.store, s.calls[c], s'.store, s'.calls[c]);
      forall d | d in s'.calls ensures CallInv(lib, s'.store, s'.calls[d]) {
        if d != c {
          CallInvStable(lib, s.store, s'.store, s.calls[d]);
        }
      }
    }
  }

  lemma {:induction false} RunKeeps(lib: Library, size: nat, run: seq<System>, i: nat)
    requires Lawful(lib) && IsRun(lib, size, run) && i < |run|
    ensures Inv(lib, run[i])
  {
    if i > 0 {
      RunKeeps(lib, size, run, i - 1);
      assert Step(lib, size, run[i - 1], run[i - 1 + 1]);
      StepKeeps(lib, size, run[i - 1], run[i]);
    }
  }

  // ---------- main results ----------

  /** In every interleaving a stored point never changes and never disappears. */
  lemma {:induction false} StoredPointsNeverChange(lib: Library, size: nat, run: seq<System>, i: nat, j: nat)
    requires Lawful(lib) && IsRun(lib, size, run) && i <= j < |run|
    ensures Extends(run[i].store, run[j].store)
    decreases j
  {
    hide Lawful;
    if i < j {
      StoredPointsNeverChange(lib, size, run, i, j - 1);
      RunKeeps(lib, size, run, j - 1);
      assert Step(lib, size, run[j - 1], run[j - 1 + 1]);
      StepKeeps(lib, size, run[j - 1], run[j]);
    }
  }

  /** A call keeps the entries it was given. */
  lemma {:induction false} EntriesNeverChange(lib: Library, size: nat, run: seq<System>, i: nat, j: nat, c: nat)
    requires Lawful(lib) && IsRun(lib, size, run) && i <= j < |run| && c in run[i].calls
    ensures c in run[j].calls && run[j].calls[c].entries == run[i].calls[c].entries
    decreases j
  {
    if i < j {
      EntriesNeverChange(lib, size, run, i, j - 1, c);
      RunKeeps(lib, size, run, j - 1);
      assert Step(lib, size, run[j - 1], run[j - 1 + 1]);
      StepKeeps(lib, size, run[j - 1], run[j]);
    }
  }

  /**
   * A call that returns normally has every entry it was given stored under its own fingerprint, at
   * that moment and in every later state of every interleaving.
   */
  lemma ReturnedStaysStored(lib: Library, size: nat, run: seq<System>, start: nat, i: nat, j: nat, c: nat, e: Entry)
    requires Lawful(lib) && IsRun(lib, size, run) && start <= i <= j < |run|
    requires c in run[start].calls && e in run[start].calls[c].entries
    requires c in run[i].calls && run[i].calls[c].Returned?
    ensures Kept(lib, run[j].store, e)
  {
    EntriesNeverChange(lib, size, run, start, i, c);
    RunKeeps(lib, size, run, i);
    StoredPointsNeverChange(lib, size, run, i, j);
    assert Kept(lib, run[i].store, e);
  }

  /** Two calls that disagree on an identity never both return, unless the two fingerprints collide. */
  lemma DisagreeingCallsNeverBothReturn(lib: Library, size: nat, run: seq<System>, i: nat, c: nat, d: nat, a: Entry, b: Entry)
    requires Lawful(lib) && IsRun(lib, size, run) && i < |run|
    requires c in run[i].calls && d in run[i].calls
    requires a in run[i].calls[c].entries && b in run[i].calls[d].entries
    requires IdentityOf(a) == IdentityOf(b) && lib.fingerprint(a) != lib.fingerprint(b)
    ensures !(run[i].calls[c].Returned? && run[i].calls[d].Returned?)
  {
    if run[i].calls[c].Returned? {
      ReturnedStaysStored(lib, size, run, i, i, i, c, a);
    }
    if run[i].calls[d].Returned? {
      ReturnedStaysStored(lib, size, run, i, i, i, d, b);
    }
  }

  /** No call ever fails on a malformed point: reads of what `index` wrote always parse. */
  lemma ReadsNeverMalformed(lib: Library, size: nat, run: seq<System>, i: nat, id: string)
    requires Lawful(lib) && IsRun(lib, size, run) && i < |run| && id in run[i].store
    ensures ParseStoredPoint(lib, Record(id, Some(run[i].store[id].payload))).Ok?
  {
    RunKeeps(lib, size, run, i);
    var e := StoredReadsBack(lib, run[i].store, id);
  }
}
