/** What the vector index stores for a document chunk, and how it is read back. */
module VectorPayload {
  import opened Wrappers
  import opened Text

  datatype Chunk = Chunk(documentId: string, chunkId: string, ordinal: int, text: string, pageNumber: Option<int>)

  /** A chunk paired with its embedding vector. Vector elements are exact reals, so there is no signed zero. */
  datatype Entry = Entry(chunk: Chunk, vector: seq<real>)

  type Identity = (string, string)

  function IdentityOf(entry: Entry): Identity {
    (entry.chunk.documentId, entry.chunk.chunkId)
  }

  predicate ValidChunk(c: Chunk) {
    && Stripped(c.documentId) && Stripped(c.chunkId) && Stripped(c.text)
    && c.ordinal >= 0 && (c.pageNumber.Some? ==> c.pageNumber.value >= 1)
  }

  predicate ValidEntry(e: Entry) {
    ValidChunk(e.chunk) && e.vector != []
  }

  /** The chunk constructor: strip the texts, refuse blanks and out-of-range numbers. */
  function MakeChunk(documentId: string, chunkId: string, ordinal: int, text: string, pageNumber: Option<int>)
    : Option<Chunk>
  {
    var c := Chunk(Strip(documentId), Strip(chunkId), ordinal, Strip(text), pageNumber);
    if c.documentId == [] || c.chunkId == [] || c.text == [] || ordinal < 0
       || (pageNumber.Some? && pageNumber.value < 1)
    then None
    else Some(c)
  }

  lemma MakeChunkValid(documentId: string, chunkId: string, ordinal: int, text: string, pageNumber: Option<int>)
    ensures var made := MakeChunk(documentId, chunkId, ordinal, text, pageNumber); made.Some? ==> ValidChunk(made.value)
    ensures var c := Chunk(documentId, chunkId, ordinal, text, pageNumber);
            ValidChunk(c) ==> MakeChunk(documentId, chunkId, ordinal, text, pageNumber) == Some(c)
  {
    StripResult(documentId);
    StripResult(chunkId);
    StripResult(text);
  }

  /**
   * Library functions taken as given: the UUIDv5 point id of an identity, the SHA-256 fingerprint
   * of an entry, the canonical text of a UUID, lower-casing, and base-16 parsing.
   */
  datatype Library = Library(
    pointId: Identity -> string,
    fingerprint: Entry -> string,
    canonicalId: string -> Option<string>,
    lower: string -> string,
    isBase16: string -> bool)

  predicate IsHexDigest(s: string) {
    |s| == 64 && forall i :: 0 <= i < |s| ==> '0' <= s[i] <= '9' || 'a' <= s[i] <= 'f'
  }

  /** Point ids are canonical UUID text and fingerprints lower-case hex digests. No injectivity is assumed. */
  ghost predicate Lawful(lib: Library) {
    && (forall id :: lib.canonicalId(lib.pointId(id)) == Some(lib.pointId(id)))
    && (forall e :: IsHexDigest(lib.fingerprint(e)))
    && (forall s :: IsHexDigest(s) ==> lib.lower(s) == s && lib.isBase16(s))
  }

  datatype PayloadValue = Null | Bool(b: bool) | Int(i: int) | Text(s: string) | Other

  type Payload = map<string, PayloadValue>

  /** A stored point without its id. */
  datatype Point = Point(payload: Payload, vector: seq<real>)

  /** What the backend returns for one point: the text of its id, and its payload if that is a mapping. */
  datatype Record = Record(id: string, payload: Option<Payload>)

  datatype Stored = Stored(pointId: string, chunk: Chunk, fingerprint: string)

  const PAYLOAD_KEYS := {"document_id", "chunk_id", "ordinal", "text", "page_number", "content_sha256"}

  function EncodePayload(lib: Library, e: Entry): Payload {
    map["document_id" := Text(e.chunk.documentId),
        "chunk_id" := Text(e.chunk.chunkId),
        "ordinal" := Int(e.chunk.ordinal),
        "text" := Text(e.chunk.text),
        "page_number" := match e.chunk.pageNumber { case Some(n) => Int(n) case None => Null },
        "content_sha256" := Text(lib.fingerprint(e))]
  }

  function ToPoint(lib: Library, e: Entry): Point {
    Point(EncodePayload(lib, e), e.vector)
  }

  function RequireText(v: PayloadValue): Option<string> {
    match v
    case Text(s) => Some(s)
    case _ => None
  }

  function RequireInt(v: PayloadValue, least: int): Option<int> {
    match v
    case Int(i) => if i < least then None else Some(i)
    case _ => None
  }

  function RequirePage(v: PayloadValue): Option<Option<int>> {
    match v
    case Null => Some(None)
    case _ => match RequireInt(v, 1) { case Some(n) => Some(Some(n)) case None => None }
  }

  function RequireFingerprint(lib: Library, v: PayloadValue): Option<string> {
    match v
    case Text(s) =>
      var digest := lib.lower(s);
      if |digest| == 64 && lib.isBase16(digest) then Some(digest) else None
    case _ => None
  }

  function ChunkFromPayload(payload: Payload): Option<Chunk>
    requires payload.Keys == PAYLOAD_KEYS
  {
    var documentId := RequireText(payload["document_id"]);
    var chunkId := RequireText(payload["chunk_id"]);
    var ordinal := RequireInt(payload["ordinal"], 0);
    var text := RequireText(payload["text"]);
    var page := RequirePage(payload["page_number"]);
    if documentId.None? || chunkId.None? || ordinal.None? || text.None? || page.None? then None
    else MakeChunk(documentId.value, chunkId.value, ordinal.value, text.value, page.value)
  }

  /** Read a backend record back; every malformed record is DependencyUnavailable. */
  function ParseStoredPoint(lib: Library, record: Record): Result<Stored, AppError> {
    var id := lib.canonicalId(record.id);
    if id.None? || record.payload.None? || record.payload.value.Keys != PAYLOAD_KEYS then
      Err(DependencyUnavailable)
    else
      var chunk := ChunkFromPayload(record.payload.value);
      var fingerprint := RequireFingerprint(lib, record.payload.value["content_sha256"]);
      if chunk.None? || fingerprint.None? then Err(DependencyUnavailable)
      else if id.value != lib.pointId((chunk.value.documentId, chunk.value.chunkId)) then Err(DependencyUnavailable)
      else Ok(Stored(id.value, chunk.value, fingerprint.value))
  }

  /** Reading back the point built from an entry gives its id, its chunk and its fingerprint. */
  lemma PayloadRoundTrip(lib: Library, e: Entry)
    requires Lawful(lib) && ValidEntry(e)
    ensures ParseStoredPoint(lib, Record(lib.pointId(IdentityOf(e)), Some(EncodePayload(lib, e))))
         == Ok(Stored(lib.pointId(IdentityOf(e)), e.chunk, lib.fingerprint(e)))
  {
    var payload := EncodePayload(lib, e);
    assert payload.Keys == PAYLOAD_KEYS;
    MakeChunkValid(e.chunk.documentId, e.chunk.chunkId, e.chunk.ordinal, e.chunk.text, e.chunk.pageNumber);
    assert ChunkFromPayload(payload) == Some(e.chunk);
  }

  /** Whatever is read back is a valid chunk filed under the point id of its own identity. */
  lemma ParsedIsFiled(lib: Library, record: Record, stored: Stored)
    requires ParseStoredPoint(lib, record) == Ok(stored)
    ensures ValidChunk(stored.chunk)
    ensures lib.canonicalId(record.id) == Some(stored.pointId)
    ensures stored.pointId == lib.pointId((stored.chunk.documentId, stored.chunk.chunkId))
  {
    var payload := record.payload.value;
    var page := RequirePage(payload["page_number"]).value;
    MakeChunkValid(RequireText(payload["document_id"]).value, RequireText(payload["chunk_id"]).value,
                   RequireInt(payload["ordinal"], 0).value, RequireText(payload["text"]).value, page);
  }

  /** The six fields of a payload, and no others. */
  function Fields(document: string, id: string, text: string, digest: string, ordinal: int, page: Option<int>): Payload {
    map["document_id" := Text(document), "chunk_id" := Text(id), "ordinal" := Int(ordinal), "text" := Text(text),
        "content_sha256" := Text(digest), "page_number" := if page.Some? then Int(page.value) else Null]
  }

  lemma {:induction false} FieldsRead(document: string, id: string, text: string, digest: string, ordinal: int, page: Option<int>)
    requires ordinal >= 0 && (page.Some? ==> page.value >= 1)
    ensures Fields(document, id, text, digest, ordinal, page).Keys == PAYLOAD_KEYS
    ensures ChunkFromPayload(Fields(document, id, text, digest, ordinal, page)) == MakeChunk(document, id, ordinal, text, page)
    ensures Fields(document, id, text, digest, ordinal, page)["content_sha256"] == Text(digest)
  {
    hide MakeChunk;
    assert Fields(document, id, text, digest, ordinal, page).Keys == PAYLOAD_KEYS;
  }

  /** The payload's fields, read literally: texts that strip to the chunk's, its numbers, and a digest. */
  ghost predicate Carries(lib: Library, payload: Payload, chunk: Chunk, fingerprint: string) {
    exists document, id, text, digest ::
      && payload == Fields(document, id, text, digest, chunk.ordinal, chunk.pageNumber)
      && Strip(document) == chunk.documentId && Strip(id) == chunk.chunkId && Strip(text) == chunk.text
      && lib.lower(digest) == fingerprint
  }

  /** `stored` is what `record` says, and what it says is well formed and filed under its own id. */
  ghost predicate Says(lib: Library, record: Record, stored: Stored) {
    && ValidChunk(stored.chunk) && |stored.fingerprint| == 64 && lib.isBase16(stored.fingerprint)
    && lib.canonicalId(record.id) == Some(stored.pointId)
    && stored.pointId == lib.pointId((stored.chunk.documentId, stored.chunk.chunkId))
    && record.payload.Some? && Carries(lib, record.payload.value, stored.chunk, stored.fingerprint)
  }

  lemma {:induction false} ParsedSays(lib: Library, record: Record, stored: Stored)
    requires ParseStoredPoint(lib, record) == Ok(stored)
    ensures Says(lib, record, stored)
  {
    ParsedIsFiled(lib, record, stored);
    var payload := record.payload.value;
    var document, id := RequireText(payload["document_id"]).value, RequireText(payload["chunk_id"]).value;
    var text, digest := RequireText(payload["text"]).value, RequireText(payload["content_sha256"]).value;
    var chunk := stored.chunk;
    assert payload == Fields(document, id, text, digest, chunk.ordinal, chunk.pageNumber);
  }

  lemma {:induction false} SaidIsParsed(lib: Library, record: Record, stored: Stored)
    requires Says(lib, record, stored)
    ensures ParseStoredPoint(lib, record) == Ok(stored)
  {
    var payload, chunk := record.payload.value, stored.chunk;
    assert Carries(lib, payload, chunk, stored.fingerprint);
    var document, id, text, digest :|
      && payload == Fields(document, id, text, digest, chunk.ordinal, chunk.pageNumber)
      && Strip(document) == chunk.documentId && Strip(id) == chunk.chunkId && Strip(text) == chunk.text
      && lib.lower(digest) == stored.fingerprint;
    FieldsRead(document, id, text, digest, chunk.ordinal, chunk.pageNumber);
    ChunkMade(document, id, text, chunk);
    hide Fields, MakeChunk, ChunkFromPayload, Strip, Stripped, Carries;
  }

  lemma {:induction false} ChunkMade(document: string, id: string, text: string, chunk: Chunk)
    requires ValidChunk(chunk) && Strip(document) == chunk.documentId && Strip(id) == chunk.chunkId && Strip(text) == chunk.text
    ensures MakeChunk(document, id, chunk.ordinal, text, chunk.pageNumber) == Some(chunk)
  {
    hide Strip;
  }

  /** A record is read exactly when it says something well formed, as just that; anything else is unavailable. */
  lemma {:induction false} ParseMeaning(lib: Library, record: Record)
    ensures forall stored :: ParseStoredPoint(lib, record) == Ok(stored) <==> Says(lib, record, stored)
    ensures ParseStoredPoint(lib, record).Err? ==> ParseStoredPoint(lib, record) == Err(DependencyUnavailable)
  {
    forall stored ensures ParseStoredPoint(lib, record) == Ok(stored) <==> Says(lib, record, stored) {
      if ParseStoredPoint(lib, record) == Ok(stored) {
        ParsedSays(lib, record, stored);
      }
      if Says(lib, record, stored) {
        SaidIsParsed(lib, record, stored);
      }
    }
  }

  // ---------- the collection ----------

  type Store = map<string, Point>

  /** The point under `id` is the one built from `e`. */
  ghost predicate Holds(lib: Library, store: Store, id: string, e: Entry) {
    id in store && ValidEntry(e) && id == lib.pointId(IdentityOf(e)) && store[id] == ToPoint(lib, e)
  }

  /** Every stored point was built from some entry: only `index` has written here. */
  ghost predicate WrittenByIndex(lib: Library, store: Store) {
    forall id :: id in store ==> exists e :: Holds(lib, store, id, e)
  }

  /** The fingerprint a well-formed stored point carries. */
  function StoredFingerprint(store: Store, id: string): Option<string> {
    if id in store && "content_sha256" in store[id].payload then RequireText(store[id].payload["content_sha256"])
    else None
  }

  /** What one stored id reads back as. */
  lemma StoredReadsBack(lib: Library, store: Store, id: string) returns (e: Entry)
    requires Lawful(lib) && WrittenByIndex(lib, store) && id in store
    ensures Holds(lib, store, id, e)
    ensures ParseStoredPoint(lib, Record(id, Some(store[id].payload))) == Ok(Stored(id, e.chunk, lib.fingerprint(e)))
    ensures StoredFingerprint(store, id) == Some(lib.fingerprint(e))
  {
    e :| Holds(lib, store, id, e);
    PayloadRoundTrip(lib, e);
  }

  // ---------- search ----------

  function ChunkIdentity(c: Chunk): Identity {
    (c.documentId, c.chunkId)
  }

  function Identities(chunks: seq<Chunk>): set<Identity> {
    set c | c in chunks :: ChunkIdentity(c)
  }

  lemma IdentitiesAppend(chunks: seq<Chunk>, c: Chunk)
    ensures Identities(chunks + [c]) == Identities(chunks) + {ChunkIdentity(c)}
  {
    assert forall x :: x in chunks + [c] <==> x in chunks || x == c;
  }

  function AddHit(front: seq<Chunk>, c: Chunk): Result<seq<Chunk>, AppError> {
    if ChunkIdentity(c) in Identities(front) then Err(DependencyUnavailable) else Ok(front + [c])
  }

  /** Read the hits in ranked order; a malformed hit or a repeated identity spoils the whole answer. */
  function ReadHits(lib: Library, points: seq<Record>): Result<seq<Chunk>, AppError> {
    if points == [] then Ok([])
    else
      var front :- ReadHits(lib, points[..|points| - 1]);
      var stored :- ParseStoredPoint(lib, points[|points| - 1]);
      AddHit(front, stored.chunk)
  }

  lemma ReadHitsStep(lib: Library, points: seq<Record>, i: nat, front: seq<Chunk>, parsed: Result<Stored, AppError>)
    requires i < |points| && ReadHits(lib, points[..i]) == Ok(front)
    requires parsed == ParseStoredPoint(lib, points[i])
    ensures ReadHits(lib, points[..i + 1])
         == match parsed { case Ok(stored) => AddHit(front, stored.chunk) case Err(e) => Err(e) }
  {
    assert points[..i + 1][..i] == points[..i];
  }

  lemma {:induction false} FailurePropagates(lib: Library, points: seq<Record>, i: nat)
    requires i <= |points| && ReadHits(lib, points[..i]).Err?
    ensures ReadHits(lib, points) == ReadHits(lib, points[..i])
  {
    if i < |points| {
      assert points[..|points| - 1][..i] == points[..i];
      FailurePropagates(lib, points[..|points| - 1], i);
    } else {
      assert points[..i] == points;
    }
  }

  /** `response` is the backend's list of points, or None for a backend error or an answer that is no list. */
  method Search(lib: Library, vectorSize: nat, query: seq<real>, limit: nat, response: Option<seq<Record>>)
    returns (r: Result<seq<Chunk>, AppError>)
    ensures r == if |query| != vectorSize then Err(InvalidRequest)
                 else if response.None? || |response.value| > limit then Err(DependencyUnavailable)
                 else ReadHits(lib, response.value)
    ensures if |query| != vectorSize then r == Err(InvalidRequest)
            else if response.None? || |response.value| > limit then r == Err(DependencyUnavailable)
            else HitsRead(lib, response.value, r)
  {
    if response.Some? {
      ReadHitsMeaning(lib, response.value);
    }
    hide HitsRead;
    if |query| != vectorSize {
      return Err(InvalidRequest);
    }
    if response.None? {
      return Err(DependencyUnavailable);
    }
    var points := response.value;
    if |points| > limit {
      return Err(DependencyUnavailable);
    }
    var results: seq<Chunk> := [];
    var seen: set<Identity> := {};
    for i := 0 to |points|
      invariant ReadHits(lib, points[..i]) == Ok(results)
      invariant seen == Identities(results)
    {
      var parsed := ParseStoredPoint(lib, points[i]);
      ReadHitsStep(lib, points, i, results, parsed);
      if parsed.Err? {
        FailurePropagates(lib, points, i + 1);
        return Err(parsed.error);
      }
      var chunk := parsed.value.chunk;
      if ChunkIdentity(chunk) in seen {
        FailurePropagates(lib, points, i + 1);
        return Err(DependencyUnavailable);
      }
      IdentitiesAppend(results, chunk);
      seen := seen + {ChunkIdentity(chunk)};
      results := results + [chunk];
    }
    assert points[..|points|] == points;
    r := Ok(results);
  }

  /** Every hit reads back, and no two as the same document and chunk. */
  ghost predicate GoodHits(lib: Library, points: seq<Record>) {
    && (forall i :: 0 <= i < |points| ==> ParseStoredPoint(lib, points[i]).Ok?)
    && (forall i, j :: 0 <= i < j < |points| ==>
          var a, b := ParseStoredPoint(lib, points[i]).value.chunk, ParseStoredPoint(lib, points[j]).value.chunk;
          a.documentId != b.documentId || a.chunkId != b.chunkId)
  }

  ghost predicate HitsReadAs(lib: Library, points: seq<Record>, chunks: seq<Chunk>) {
    && |chunks| == |points|
    && forall i :: 0 <= i < |points| ==>
         ParseStoredPoint(lib, points[i]).Ok? && chunks[i] == ParseStoredPoint(lib, points[i]).value.chunk
  }

  ghost predicate HitsRead(lib: Library, points: seq<Record>, r: Result<seq<Chunk>, AppError>) {
    if GoodHits(lib, points) then r.Ok? && HitsReadAs(lib, points, r.value) else r == Err(DependencyUnavailable)
  }

  lemma {:induction false} BadPrefix(lib: Library, front: seq<Record>, last: Record)
    requires !GoodHits(lib, front) || ParseStoredPoint(lib, last).Err?
    ensures !GoodHits(lib, front + [last])
  {
    hide ParseStoredPoint;
    var all := front + [last];
    assert all[|front|] == last && forall i :: 0 <= i < |front| ==> all[i] == front[i];
  }

  lemma {:induction false} OneMoreHit(lib: Library, front: seq<Record>, last: Record, chunks: seq<Chunk>)
    requires GoodHits(lib, front) && HitsReadAs(lib, front, chunks) && ParseStoredPoint(lib, last).Ok?
    ensures HitsRead(lib, front + [last], AddHit(chunks, ParseStoredPoint(lib, last).value.chunk))
  {
    hide ParseStoredPoint;
    var all, c := front + [last], ParseStoredPoint(lib, last).value.chunk;
    assert all[|front|] == last && forall i :: 0 <= i < |front| ==> all[i] == front[i];
    if ChunkIdentity(c) in Identities(chunks) {
      var x :| x in chunks && ChunkIdentity(x) == ChunkIdentity(c);
      var i :| 0 <= i < |chunks| && chunks[i] == x;
      assert all[i] == front[i];
    } else {
      forall i | 0 <= i < |front| ensures ChunkIdentity(chunks[i]) != ChunkIdentity(c) {
        assert chunks[i] in chunks;
      }
    }
  }

  /** An answer is read, hit by hit in ranked order, exactly when its hits are good; else the whole answer is refused. */
  lemma {:induction false} ReadHitsMeaning(lib: Library, points: seq<Record>)
    ensures HitsRead(lib, points, ReadHits(lib, points))
  {
    if points != [] {
      var front, last := points[..|points| - 1], points[|points| - 1];
      ReadHitsMeaning(lib, front);
      assert points == front + [last];
      ParseMeaning(lib, last);
      hide ParseStoredPoint, GoodHits, HitsReadAs, AddHit;
      if !GoodHits(lib, front) || ParseStoredPoint(lib, last).Err? {
        BadPrefix(lib, front, last);
      } else {
        OneMoreHit(lib, front, last, ReadHits(lib, front).value);
      }
    }
  }

  /** The records of distinct stored points, in some ranked order. */
  ghost predicate HitsFrom(store: Store, points: seq<Record>) {
    && (forall i :: 0 <= i < |points| ==>
          points[i].id in store && points[i].payload == Some(store[points[i].id].payload))
    && (forall i, j :: 0 <= i < j < |points| ==> points[i].id != points[j].id)
  }

  /** `c` is the chunk of the entry stored under `id`. */
  ghost predicate IsChunkAt(lib: Library, store: Store, id: string, c: Chunk) {
    exists e :: Holds(lib, store, id, e) && e.chunk == c
  }

  /** Over a store written only by `index`, distinct stored points always read back, each as its own chunk. */
  lemma {:induction false} SearchReadsBack(lib: Library, store: Store, points: seq<Record>)
    requires Lawful(lib) && WrittenByIndex(lib, store) && HitsFrom(store, points)
    ensures ReadHits(lib, points).Ok? && |ReadHits(lib, points).value| == |points|
    ensures forall i :: 0 <= i < |points| ==> IsChunkAt(lib, store, points[i].id, ReadHits(lib, points).value[i])
  {
    hide Lawful, WrittenByIndex, ParseStoredPoint, Holds, StoredFingerprint;
    if points != [] {
      var k := |points| - 1;
      assert points[..k + 1] == points;
      SearchReadsBack(lib, store, points[..k]);
      var front := ReadHits(lib, points[..k]).value;
      var e := StoredReadsBack(lib, store, points[k].id);
      assert Record(points[k].id, Some(store[points[k].id].payload)) == points[k];
      ReadHitsStep(lib, points, k, front, Ok(Stored(points[k].id, e.chunk, lib.fingerprint(e))));
      FreshIdentity(lib, store, points, front, e);
    }
  }

  /** Different point ids mean different identities, because the id is a function of the identity. */
  lemma FreshIdentity(lib: Library, store: Store, points: seq<Record>, front: seq<Chunk>, e: Entry)
    requires points != [] && HitsFrom(store, points) && |front| == |points| - 1
    requires forall i :: 0 <= i < |front| ==> IsChunkAt(lib, store, points[i].id, front[i])
    requires Holds(lib, store, points[|points| - 1].id, e)
    ensures ChunkIdentity(e.chunk) !in Identities(front)
  {
    forall c | c in front
      ensures ChunkIdentity(c) != ChunkIdentity(e.chunk)
    {
      var i :| 0 <= i < |front| && front[i] == c;
      assert IsChunkAt(lib, store, points[i].id, front[i]);
    }
  }
}
