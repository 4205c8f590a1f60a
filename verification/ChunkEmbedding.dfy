/** One vector per chunk, in chunk order, and the index entries made of them. */
module ChunkEmbedding {
  import opened Wrappers
  import opened Text
  import opened ProviderOrdering
  import VectorPayload

  type Chunk = VectorPayload.Chunk

  datatype Embedded = Embedded(documentId: string, chunkId: string, vector: seq<real>)

  /** What the provider call comes back with. */
  datatype Reply = ProviderError | NotASequence | Items(items: seq<Item>)

  // ---------- one vector per chunk ----------

  /** The floats of a vector, refused when one of its elements is not a finite float. */
  function Floats(elements: seq<Element>): (r: Option<seq<real>>)
    ensures r.Some? <==> forall i :: 0 <= i < |elements| ==> elements[i].Float?
    ensures r.Some? ==> |r.value| == |elements| && forall i :: 0 <= i < |elements| ==> elements[i] == Float(r.value[i])
  {
    if elements == [] then Some([])
    else
      var last := |elements| - 1;
      var earlier := Floats(elements[..last]);
      if earlier.None? || elements[last].NotFloat? then None
      else Some(earlier.value + [elements[last].value])
  }

  /** The embedding constructor: non-empty identity texts and a non-empty vector of finite floats. */
  function MakeEmbedded(documentId: string, chunkId: string, elements: seq<Element>): Option<Embedded> {
    if Strip(documentId) == [] || Strip(chunkId) == [] || elements == [] || Floats(elements).None? then None
    else Some(Embedded(Strip(documentId), Strip(chunkId), Floats(elements).value))
  }

  function EmbedOne(chunk: Chunk, item: Item): Result<Embedded, AppError> {
    match item.embedding
    case Absent => Err(DependencyUnavailable)
    case NotIterable => Err(DependencyUnavailable)
    case Elements(elements) =>
      var made := MakeEmbedded(chunk.documentId, chunk.chunkId, elements);
      if made.None? then Err(DependencyUnavailable) else Ok(made.value)
  }

  function EmbedEach(chunks: seq<Chunk>, items: seq<Item>): Result<seq<Embedded>, AppError>
    requires |chunks| == |items|
  {
    if chunks == [] then Ok([])
    else
      var last := |chunks| - 1;
      var earlier :- EmbedEach(chunks[..last], items[..last]);
      var one :- EmbedOne(chunks[last], items[last]);
      Ok(earlier + [one])
  }

  function Dimensions(embeddings: seq<Embedded>): set<nat> {
    set e | e in embeddings :: |e.vector|
  }

  lemma OrderedLength(items: seq<Item>, n: nat)
    ensures OrderedItems(items, n).Ok? ==> |OrderedItems(items, n).value| == n
  {
    AcceptedItems(items, n);
  }

  function ToChunkEmbeddings(chunks: seq<Chunk>, items: seq<Item>): Result<seq<Embedded>, AppError> {
    OrderedLength(items, |chunks|);
    var ordered :- OrderedItems(items, |chunks|);
    var embeddings :- EmbedEach(chunks, ordered);
    if |Dimensions(embeddings)| != 1 then Err(DependencyUnavailable) else Ok(embeddings)
  }

  /** Embedding a batch: an empty one needs no provider. */
  function Embed(chunks: seq<Chunk>, reply: Reply): Result<seq<Embedded>, AppError> {
    if chunks == [] then Ok([])
    else
      match reply
      case ProviderError => Err(DependencyUnavailable)
      case NotASequence => Err(DependencyUnavailable)
      case Items(items) => ToChunkEmbeddings(chunks, items)
  }

  lemma {:induction false} EmbedEachStops(chunks: seq<Chunk>, items: seq<Item>, i: nat)
    requires i < |chunks| == |items| && EmbedOne(chunks[i], items[i]).Err?
    ensures EmbedEach(chunks, items) == Err(DependencyUnavailable)
  {
    var last := |chunks| - 1;
    if i < last {
      EmbedEachStops(chunks[..last], items[..last], i);
    } else {
      EmbedEachFails(chunks[..last], items[..last]);
    }
  }

  lemma {:induction false} EmbedEachFails(chunks: seq<Chunk>, items: seq<Item>)
    requires |chunks| == |items|
    ensures EmbedEach(chunks, items).Err? ==> EmbedEach(chunks, items) == Err(DependencyUnavailable)
  {
    if chunks != [] {
      EmbedEachFails(chunks[..|chunks| - 1], items[..|chunks| - 1]);
    }
  }

  method EmbedOrdered(chunks: seq<Chunk>, items: seq<Item>) returns (r: Result<seq<Embedded>, AppError>)
    requires |chunks| == |items|
    ensures r == EmbedEach(chunks, items)
  {
    var embeddings: seq<Embedded> := [];
    for i := 0 to |chunks|
      invariant EmbedEach(chunks[..i], items[..i]) == Ok(embeddings)
    {
      assert chunks[..i + 1][..i] == chunks[..i] && items[..i + 1][..i] == items[..i];
      var one := EmbedOne(chunks[i], items[i]);
      if one.Err? {
        EmbedEachStops(chunks, items, i);
        return Err(DependencyUnavailable);
      }
      embeddings := embeddings + [one.value];
    }
    assert chunks[..|chunks|] == chunks && items[..|items|] == items;
    r := Ok(embeddings);
  }

  method EmbedChunks(chunks: seq<Chunk>, reply: Reply) returns (r: Result<seq<Embedded>, AppError>)
    ensures r == Embed(chunks, reply)
  {
    if chunks == [] {
      return Ok([]);
    }
    if !reply.Items? {
      return Err(DependencyUnavailable);
    }
    var ordered := OrderProviderItems(reply.items, |chunks|);
    if ordered.Err? {
      return Err(ordered.error);
    }
    OrderedLength(reply.items, |chunks|);
    var embeddings := EmbedOrdered(chunks, ordered.value);
    if embeddings.Err? {
      return embeddings;
    }
    if |Dimensions(embeddings.value)| != 1 {
      return Err(DependencyUnavailable);
    }
    r := embeddings;
  }

  // ---------- index entries ----------

  /** Pair each chunk with the embedding at its position, refusing any mismatch. */
  function ToIndexEntries(chunks: seq<Chunk>, embeddings: seq<Embedded>): Result<seq<VectorPayload.Entry>, AppError> {
    if |embeddings| != |chunks| then Err(DependencyUnavailable)
    else if chunks == [] then Ok([])
    else
      var last := |chunks| - 1;
      var earlier :- ToIndexEntries(chunks[..last], embeddings[..last]);
      if !Matches(chunks[last], embeddings[last]) then Err(DependencyUnavailable)
      else Ok(earlier + [VectorPayload.Entry(chunks[last], embeddings[last].vector)])
  }

  predicate Matches(chunk: Chunk, embedding: Embedded) {
    embedding.documentId == chunk.documentId && embedding.chunkId == chunk.chunkId
  }

  lemma {:induction false} ToIndexEntriesStops(chunks: seq<Chunk>, embeddings: seq<Embedded>, i: nat)
    requires i < |chunks| == |embeddings| && !Matches(chunks[i], embeddings[i])
    ensures ToIndexEntries(chunks, embeddings) == Err(DependencyUnavailable)
  {
    var last := |chunks| - 1;
    if i < last {
      ToIndexEntriesStops(chunks[..last], embeddings[..last], i);
    } else {
      ToIndexEntriesFails(chunks[..last], embeddings[..last]);
    }
  }

  lemma {:induction false} ToIndexEntriesFails(chunks: seq<Chunk>, embeddings: seq<Embedded>)
    ensures ToIndexEntries(chunks, embeddings).Err? ==> ToIndexEntries(chunks, embeddings) == Err(DependencyUnavailable)
  {
    if |chunks| == |embeddings| > 0 {
      ToIndexEntriesFails(chunks[..|chunks| - 1], embeddings[..|chunks| - 1]);
    }
  }

  method PairEntries(chunks: seq<Chunk>, embeddings: seq<Embedded>) returns (r: Result<seq<VectorPayload.Entry>, AppError>)
    ensures r == ToIndexEntries(chunks, embeddings)
  {
    if |embeddings| != |chunks| {
      return Err(DependencyUnavailable);
    }
    var entries: seq<VectorPayload.Entry> := [];
    for i := 0 to |chunks|
      invariant ToIndexEntries(chunks[..i], embeddings[..i]) == Ok(entries)
    {
      assert chunks[..i + 1][..i] == chunks[..i] && embeddings[..i + 1][..i] == embeddings[..i];
      if !Matches(chunks[i], embeddings[i]) {
        ToIndexEntriesStops(chunks, embeddings, i);
        return Err(DependencyUnavailable);
      }
      entries := entries + [VectorPayload.Entry(chunks[i], embeddings[i].vector)];
    }
    assert chunks[..|chunks|] == chunks && embeddings[..|chunks|] == embeddings;
    r := Ok(entries);
  }

  /** Preparing a batch of chunks for indexing. */
  function Prepare(chunks: seq<Chunk>, reply: Reply): Result<seq<VectorPayload.Entry>, AppError> {
    var embeddings :- Embed(chunks, reply);
    ToIndexEntries(chunks, embeddings)
  }

  // ---------- what a prepared batch is ----------

  /** The vector an item offers: a non-empty list of finite floats. */
  predicate Offers(item: Item, vector: seq<real>) {
    && vector != [] && item.embedding.Elements? && |item.embedding.elements| == |vector|
    && forall j :: 0 <= j < |vector| ==> item.embedding.elements[j] == Float(vector[j])
  }

  predicate Usable(item: Item) {
    item.embedding.Elements? && item.embedding.elements != []
    && forall j :: 0 <= j < |item.embedding.elements| ==> item.embedding.elements[j].Float?
  }

  lemma EmbedOneMeaning(chunk: Chunk, item: Item)
    requires VectorPayload.ValidChunk(chunk)
    ensures EmbedOne(chunk, item).Ok? <==> Usable(item)
    ensures EmbedOne(chunk, item).Ok? ==>
              Matches(chunk, EmbedOne(chunk, item).value) && Offers(item, EmbedOne(chunk, item).value.vector)
  {
    StripResult(chunk.documentId);
    StripResult(chunk.chunkId);
  }

  /** What embedding each chunk returns: one matching embedding per usable item, in order. */
  ghost predicate Embeds(chunks: seq<Chunk>, items: seq<Item>, r: Result<seq<Embedded>, AppError>)
    requires |chunks| == |items|
  {
    && (r.Ok? <==> forall i :: 0 <= i < |items| ==> Usable(items[i]))
    && (r.Ok? ==> |r.value| == |chunks|
                  && forall i :: 0 <= i < |chunks| ==> Matches(chunks[i], r.value[i]) && Offers(items[i], r.value[i].vector))
  }

  lemma {:induction false} EmbedEachMeaning(chunks: seq<Chunk>, items: seq<Item>)
    requires |chunks| == |items| && forall i :: 0 <= i < |chunks| ==> VectorPayload.ValidChunk(chunks[i])
    ensures Embeds(chunks, items, EmbedEach(chunks, items))
  {
    if chunks != [] {
      var last := |chunks| - 1;
      EmbedEachMeaning(chunks[..last], items[..last]);
      EmbedOneMeaning(chunks[last], items[last]);
      hide Usable, Matches, Offers;
      assert items == items[..last] + [items[last]] && chunks == chunks[..last] + [chunks[last]];
      EmbedsExtend(chunks[..last], items[..last], EmbedEach(chunks[..last], items[..last]),
                   chunks[last], items[last], EmbedOne(chunks[last], items[last]));
      EmbedEachExtends(chunks, items);
      hide *;
    }
  }

  function Extended(earlier: Result<seq<Embedded>, AppError>, one: Result<Embedded, AppError>)
    : Result<seq<Embedded>, AppError>
  {
    if earlier.Err? then earlier
    else if one.Err? then Err(one.error)
    else Ok(earlier.value + [one.value])
  }

  lemma {:induction false} EmbedEachExtends(chunks: seq<Chunk>, items: seq<Item>)
    requires |chunks| == |items| > 0
    ensures var k := |chunks| - 1;
            EmbedEach(chunks, items) == Extended(EmbedEach(chunks[..k], items[..k]), EmbedOne(chunks[k], items[k]))
  {
    hide EmbedOne;
  }

  lemma {:induction false} EmbedsExtend(chunks: seq<Chunk>, items: seq<Item>, earlier: Result<seq<Embedded>, AppError>,
                                        chunk: Chunk, item: Item, one: Result<Embedded, AppError>)
    requires |chunks| == |items| && Embeds(chunks, items, earlier)
    requires one.Ok? <==> Usable(item)
    requires one.Ok? ==> Matches(chunk, one.value) && Offers(item, one.value.vector)
    ensures Embeds(chunks + [chunk], items + [item], Extended(earlier, one))
  {
    hide Usable, Matches, Offers;
    forall i | 0 <= i < |items|
      ensures (items + [item])[i] == items[i] && (chunks + [chunk])[i] == chunks[i]
    {
    }
    assert (items + [item])[|items|] == item && (chunks + [chunk])[|items|] == chunk;
  }

  lemma {:induction false} ToIndexEntriesMeaning(chunks: seq<Chunk>, embeddings: seq<Embedded>)
    ensures ToIndexEntries(chunks, embeddings).Ok? <==>
            && |embeddings| == |chunks|
            && forall i :: 0 <= i < |chunks| ==>
                 embeddings[i].documentId == chunks[i].documentId && embeddings[i].chunkId == chunks[i].chunkId
    ensures ToIndexEntries(chunks, embeddings).Err? ==> ToIndexEntries(chunks, embeddings) == Err(DependencyUnavailable)
    ensures ToIndexEntries(chunks, embeddings).Ok? ==>
              && |ToIndexEntries(chunks, embeddings).value| == |chunks|
              && forall i :: 0 <= i < |chunks| ==>
                   ToIndexEntries(chunks, embeddings).value[i] == VectorPayload.Entry(chunks[i], embeddings[i].vector)
  {
    if |embeddings| == |chunks| > 0 {
      ToIndexEntriesMeaning(chunks[..|chunks| - 1], embeddings[..|chunks| - 1]);
    }
  }

  lemma OneDimension(embeddings: seq<Embedded>)
    requires embeddings != []
    ensures |Dimensions(embeddings)| == 1 <==>
            forall i, j :: 0 <= i < j < |embeddings| ==> |embeddings[i].vector| == |embeddings[j].vector|
  {
    var d := |embeddings[0].vector|;
    assert embeddings[0] in embeddings;
    assert d in Dimensions(embeddings);
    if forall i, j :: 0 <= i < j < |embeddings| ==> |embeddings[i].vector| == |embeddings[j].vector| {
      assert Dimensions(embeddings) == {d};
    }
    if |Dimensions(embeddings)| == 1 {
      SubsetOfSameSize({d}, Dimensions(embeddings));
      forall i | 0 <= i < |embeddings| ensures |embeddings[i].vector| == d {
        assert embeddings[i] in embeddings;
        assert |embeddings[i].vector| in Dimensions(embeddings);
      }
    }
  }

  /** An answer the batch can be embedded from: indexes permuting 0..n-1, and vectors of one common dimension. */
  ghost predicate Acceptable(items: seq<Item>, n: nat) {
    && Permutes(items, n)
    && (forall p :: 0 <= p < n ==> Usable(items[p]))
    && Uniform(items)
  }

  /** How many elements an item's embedding has. */
  function Size(item: Item): nat {
    if item.embedding.Elements? then |item.embedding.elements| else 0
  }

  ghost predicate Uniform(items: seq<Item>) {
    forall p, q :: 0 <= p < q < |items| ==> Size(items[p]) == Size(items[q])
  }

  lemma EveryItemPlaced(items: seq<Item>, n: nat)
    requires Permutes(items, n)
    ensures OrderedItems(items, n).Ok? && |OrderedItems(items, n).value| == n
    ensures forall item :: item in OrderedItems(items, n).value <==> item in items
  {
    PermutesByEffective(items, n);
    OrderedByIndex(items, n);
    var ordered := OrderedItems(items, n).value;
    forall item ensures item in ordered <==> item in items {
      if i :| 0 <= i < n && ordered[i] == item {
        assert HoldsIndex(items, i, item);
      }
      if p :| 0 <= p < n && items[p] == item {
        var i := Effective(p, items[p]);
        assert HoldsIndex(items, i, ordered[i]);
      }
    }
  }

  lemma UniformMembers(items: seq<Item>, others: seq<Item>)
    requires forall item :: item in others ==> item in items
    requires Uniform(items)
    ensures Uniform(others)
  {
    forall p, q | 0 <= p < q < |others| ensures Size(others[p]) == Size(others[q]) {
      assert others[p] in items && others[q] in items;
    }
  }

  /** A non-empty batch is embedded exactly when the answer is acceptable. */
  lemma EmbedAccepts(chunks: seq<Chunk>, items: seq<Item>)
    requires chunks != [] && forall i :: 0 <= i < |chunks| ==> VectorPayload.ValidChunk(chunks[i])
    ensures if Acceptable(items, |chunks|) then ToChunkEmbeddings(chunks, items).Ok?
            else ToChunkEmbeddings(chunks, items) == Err(DependencyUnavailable)
  {
    var n := |chunks|;
    AcceptedItems(items, n);
    if Permutes(items, n) {
      EveryItemPlaced(items, n);
      var ordered := OrderedItems(items, n).value;
      EmbedEachMeaning(chunks, ordered);
      EmbedEachFails(chunks, ordered);
      assert (forall i :: 0 <= i < n ==> Usable(ordered[i])) <==> (forall p :: 0 <= p < n ==> Usable(items[p])) by {
        assert forall i :: 0 <= i < n ==> ordered[i] in items;
        assert forall p :: 0 <= p < n ==> items[p] in ordered;
      }
      if EmbedEach(chunks, ordered).Ok? {
        EmbedDimensions(chunks, items, ordered);
      }
    }
  }

  lemma EmbedDimensions(chunks: seq<Chunk>, items: seq<Item>, ordered: seq<Item>)
    requires chunks != [] && |chunks| == |items| == |ordered|
    requires forall i :: 0 <= i < |chunks| ==> VectorPayload.ValidChunk(chunks[i])
    requires forall item :: item in ordered <==> item in items
    requires EmbedEach(chunks, ordered).Ok?
    ensures |Dimensions(EmbedEach(chunks, ordered).value)| == 1 <==>
            Uniform(items)
  {
    EmbedEachMeaning(chunks, ordered);
    var embeddings := EmbedEach(chunks, ordered).value;
    OneDimension(embeddings);
    forall i | 0 <= i < |embeddings|
      ensures |embeddings[i].vector| == Size(ordered[i])
    {
      assert Matches(chunks[i], embeddings[i]);
    }
    if Uniform(ordered) {
      UniformMembers(ordered, items);
    }
    if Uniform(items) {
      UniformMembers(items, ordered);
    }
  }

  /** The provider answered with items the batch can be embedded from. */
  ghost predicate Answered(chunks: seq<Chunk>, reply: Reply) {
    reply.Items? && Acceptable(reply.items, |chunks|)
  }

  /** An empty batch needs no provider; any other is embedded exactly when the provider answered acceptably. */
  lemma {:induction false} EmbedMeaning(chunks: seq<Chunk>, reply: Reply)
    requires forall i :: 0 <= i < |chunks| ==> VectorPayload.ValidChunk(chunks[i])
    ensures if chunks == [] then Embed(chunks, reply) == Ok([])
            else if !Answered(chunks, reply) then Embed(chunks, reply) == Err(DependencyUnavailable)
            else Embed(chunks, reply).Ok? && Aligned(chunks, reply.items, Embed(chunks, reply).value)
  {
    if chunks != [] && reply.Items? {
      EmbedAccepts(chunks, reply.items);
      hide ToChunkEmbeddings, Acceptable, Aligned;
      if ToChunkEmbeddings(chunks, reply.items).Ok? {
        EmbeddedIsAligned(chunks, reply.items);
      }
    }
  }

  /** Preparing entries fails exactly when embedding does, in the same way. */
  lemma {:induction false} PrepareMeaning(chunks: seq<Chunk>, reply: Reply)
    requires forall i :: 0 <= i < |chunks| ==> VectorPayload.ValidChunk(chunks[i])
    ensures if chunks == [] then Prepare(chunks, reply) == Ok([])
            else if !Answered(chunks, reply) then Prepare(chunks, reply) == Err(DependencyUnavailable)
            else Prepare(chunks, reply).Ok? && Faithful(chunks, reply.items, Prepare(chunks, reply).value)
  {
    EmbedMeaning(chunks, reply);
    if chunks != [] && Answered(chunks, reply) {
      PreparedIsFaithful(chunks, reply.items);
    }
    hide Embed, Answered, Faithful, Aligned;
  }

  /** The vector at each position is the one the provider sent under that position's index. */
  ghost predicate Faithful(chunks: seq<Chunk>, items: seq<Item>, entries: seq<VectorPayload.Entry>) {
    && |entries| == |chunks|
    && (forall i :: 0 <= i < |chunks| ==> entries[i].chunk == chunks[i] && Sent(items, i, entries[i].vector))
    && (forall i, j :: 0 <= i < j < |chunks| ==> |entries[i].vector| == |entries[j].vector|)
  }

  ghost predicate Sent(items: seq<Item>, i: int, vector: seq<real>) {
    exists p: nat :: CountsAs(items, p, i) && Offers(items[p], vector)
  }

  /** The embeddings of a batch, one per chunk: right identity, and the vector sent under that position. */
  ghost predicate Aligned(chunks: seq<Chunk>, items: seq<Item>, embeddings: seq<Embedded>) {
    && |embeddings| == |chunks|
    && (forall i :: 0 <= i < |chunks| ==>
          Matches(chunks[i], embeddings[i]) && Sent(items, i, embeddings[i].vector) && embeddings[i].vector != [])
    && (forall i, j :: 0 <= i < j < |chunks| ==> |embeddings[i].vector| == |embeddings[j].vector|)
  }

  lemma EmbeddedIsAligned(chunks: seq<Chunk>, items: seq<Item>)
    requires chunks != [] && forall i :: 0 <= i < |chunks| ==> VectorPayload.ValidChunk(chunks[i])
    requires ToChunkEmbeddings(chunks, items).Ok?
    ensures Aligned(chunks, items, ToChunkEmbeddings(chunks, items).value)
  {
    var n, embeddings := |chunks|, ToChunkEmbeddings(chunks, items).value;
    AcceptedItems(items, n);
    OrderedByIndex(items, n);
    var ordered := OrderedItems(items, n).value;
    EmbedEachMeaning(chunks, ordered);
    OneDimension(embeddings);
    hide OrderedItems, EmbedEach, HoldsIndex, Permutes, Offers, Matches, Dimensions, Sent;
    forall i | 0 <= i < n
      ensures Matches(chunks[i], embeddings[i]) && Sent(items, i, embeddings[i].vector) && embeddings[i].vector != []
    {
      SentUnderIndex(items, i, ordered[i], embeddings[i].vector);
    }
  }

  /** After a successful embedding the pairing never meets a mismatch: one entry per chunk, in order, each with its own vector. */
  lemma PreparedIsFaithful(chunks: seq<Chunk>, items: seq<Item>)
    requires forall i :: 0 <= i < |chunks| ==> VectorPayload.ValidChunk(chunks[i])
    requires Embed(chunks, Items(items)).Ok?
    ensures Prepare(chunks, Items(items)).Ok?
    ensures Faithful(chunks, items, Prepare(chunks, Items(items)).value)
    ensures forall e :: e in Prepare(chunks, Items(items)).value ==> VectorPayload.ValidEntry(e)
  {
    ToIndexEntriesMeaning(chunks, Embed(chunks, Items(items)).value);
    hide ToIndexEntries, ToChunkEmbeddings, Matches, Sent;
    if chunks != [] {
      EmbeddedIsAligned(chunks, items);
    }
  }

  lemma SentUnderIndex(items: seq<Item>, i: int, item: Item, vector: seq<real>)
    requires HoldsIndex(items, i, item) && Offers(item, vector)
    ensures Sent(items, i, vector) && vector != []
  {
    var p: nat :| CountsAs(items, p, i) && items[p] == item;
    assert Offers(items[p], vector);
  }
}
