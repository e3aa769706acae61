/** Whole indexing runs: the per-document pipeline of backend/cmd/rag-cli/main.go over the store, and what
    the next run makes of what it finds there. */
module IndexRuns {
  import opened Text
  import opened Documents
  import opened ChunkIds
  import opened Chunking
  import opened Translations
  import opened IndexStore
  import opened IndexSkip

  /** A configured indexer, in "llm" mode or in the default "local" mode. Embedding a text may fail. */
  datatype Indexer = Indexer(llm: bool, s: Settings, t: Translator, cfg: ChunkConfig,
                             embed: string -> Result<seq<real>>)

  function EmbedOne(embed: string -> Result<seq<real>>): Chunk -> Result<EmbeddedChunk> {
    (c: Chunk) => var v := embed(c.text); if v.Failure? then Failure(v.error) else Success(EmbeddedChunk(c, v.value))
  }

  function EmbedAll(embed: string -> Result<seq<real>>, chunks: seq<Chunk>): Result<seq<EmbeddedChunk>> {
    Collect(EmbedOne(embed), chunks)
  }

  /** What is chunked: in "llm" mode one variant per supported language, in "local" mode the documents as they are. */
  function Variants(x: Indexer, docs: seq<Document>, state: DocumentState): Result<seq<Document>> {
    if x.llm then Completion(x.s, x.t, docs, state) else Success(docs)
  }

  /** The chunks the pipeline hands to the store for one document. */
  function Items(x: Indexer, docs: seq<Document>, state: DocumentState): Result<seq<EmbeddedChunk>> {
    var variants := Variants(x, docs, state);
    if variants.Failure? then Failure(variants.error)
    else
      var chunks := ChunkResult(variants.value, x.cfg, x.s.known);
      if chunks.Failure? then Failure(chunks.error) else EmbedAll(x.embed, chunks.value)
  }

  /** processDocumentGroup, up to the metrics row: either the document's transaction commits, or the
      database is untouched. */
  method ProcessDocumentGroup(x: Indexer, store: PostgresVectorStore, docs: seq<Document>, state: DocumentState,
                              alive: nat -> bool)
    returns (ok: bool)
    modifies store`db
    ensures !ok ==> store.db == old(store.db)
    ensures ok ==> docs != [] && TrimSpace(docs[0].id) != "" && Items(x, docs, state).Success?
                   && WellFormed(Items(x, docs, state).value, store.dimension)
                   && store.db == Committed(old(store.db), Items(x, docs, state).value)
    ensures (&& (forall n :: alive(n)) && docs != [] && TrimSpace(docs[0].id) != "" && Items(x, docs, state).Success?
             && WellFormed(Items(x, docs, state).value, store.dimension)) ==> ok
  {
    if docs == [] || TrimSpace(docs[0].id) == "" {
      return false;
    }
    var group := docs;
    if x.llm {
      var variants := EnsureMissingTranslations(x.s, x.t, docs, state);
      if variants.Failure? {
        return false;
      }
      group := variants.value;
    }
    var chunks := ChunkDocuments(group, x.cfg, x.s.known);
    if chunks.Failure? {
      return false;
    }
    var embedded := EmbedAll(x.embed, chunks.value);
    if embedded.Failure? {
      return false;
    }
    ok := store.UpsertDocumentChunks(embedded.value, alive);
  }

  // ===== Crash safety =====

  /** A document marked complete has exactly as many chunk rows as it says. */
  ghost predicate Truthful(db: Database) {
    forall id | id in db.documents && db.documents[id].complete :: |Rows(db, id)| == db.documents[id].chunkCount
  }

  /** Every chunk row belongs to the document that owns its id. */
  ghost predicate Owned(db: Database, owner: string -> string) {
    forall k | k in db.chunks :: owner(k) == db.chunks[k].documentID
  }

  ghost predicate DistinctIDs(items: seq<EmbeddedChunk>) {
    forall i, j | 0 <= i < j < |items| :: items[i].chunk.id != items[j].chunk.id
  }

  /** Items one transaction may carry: one trimmed document id, and chunk ids owned by it. */
  ghost predicate Belong(items: seq<EmbeddedChunk>, id: string, owner: string -> string) {
    && TrimSpace(id) == id && AllOf(items, id)
    && forall i | 0 <= i < |items| :: owner(items[i].chunk.id) == id
  }

  /** Items that leave as many rows as there are items. */
  ghost predicate Proper(items: seq<EmbeddedChunk>, id: string, owner: string -> string) {
    Belong(items, id, owner) && DistinctIDs(items)
  }

  /** As many rows as items are stored exactly when no two of them share a chunk id. */
  lemma {:induction false} ItemIDCount(items: seq<EmbeddedChunk>)
    ensures |ItemIDs(items)| <= |items|
    ensures |ItemIDs(items)| == |items| <==> DistinctIDs(items)
    decreases |items|
  {
    if items != [] {
      var n := |items| - 1;
      ItemIDCount(items[..n]);
      LastItemID(items);
      hide ItemIDs, DistinctIDs;
    }
  }

  lemma LastItemID(items: seq<EmbeddedChunk>)
    requires items != []
    ensures var n := |items| - 1;
            && ItemIDs(items) == ItemIDs(items[..n]) + {items[n].chunk.id}
            && (DistinctIDs(items) <==> DistinctIDs(items[..n]) && items[n].chunk.id !in ItemIDs(items[..n]))
  {
  }

  lemma CommittedParts(db: Database, items: seq<EmbeddedChunk>, id: string)
    requires items != [] && AllOf(items, id) && TrimSpace(id) == id
    ensures var upserted := UpsertItems(ClearChunks(db, id), items);
            && Committed(db, items).chunks == upserted.chunks
            && Committed(db, items).translations == upserted.translations
            && id in upserted.documents
            && Committed(db, items).documents
               == upserted.documents[id := upserted.documents[id].(complete := true, chunkCount := |items|)]
  {
    assert items[0].chunk.documentID == id;
    UpsertItemsDocuments(ClearChunks(db, id), items, id);
  }

  /** The chunk rows after a transaction: the document's are replaced, and every other document keeps those
      whose ids were not taken. */
  lemma RowsAfterCommit(db: Database, items: seq<EmbeddedChunk>, id: string, d: string)
    requires items != [] && AllOf(items, id) && TrimSpace(id) == id
    ensures Rows(Committed(db, items), d) == if d == id then ItemIDs(items) else Rows(db, d) - ItemIDs(items)
  {
    var clear := ClearChunks(db, id);
    CommittedParts(db, items, id);
    UpsertItemsChunks(clear, items, id);
    hide UpsertItems, Committed, ItemIDs;
  }

  lemma CommittedRows(db: Database, items: seq<EmbeddedChunk>, id: string, owner: string -> string)
    requires items != [] && Belong(items, id, owner) && Owned(db, owner)
    ensures Owned(Committed(db, items), owner)
    ensures Rows(Committed(db, items), id) == ItemIDs(items)
    ensures forall d | d != id :: Rows(Committed(db, items), d) == Rows(db, d)
  {
    CommittedParts(db, items, id);
    UpsertItemsChunks(ClearChunks(db, id), items, id);
    RowsAfterCommit(db, items, id, id);
    forall d | d != id
      ensures Rows(Committed(db, items), d) == Rows(db, d)
    {
      RowsAfterCommit(db, items, id, d);
      NothingTaken(Rows(db, d), ItemIDs(items));
    }
    hide UpsertItems, Committed;
  }

  lemma NothingTaken<T>(a: set<T>, b: set<T>)
    requires forall x | x in a :: x !in b
    ensures a - b == a
  {
  }

  /** A committed transaction keeps every completeness mark truthful. */
  lemma CommittedKeepsTruth(db: Database, items: seq<EmbeddedChunk>, id: string, owner: string -> string)
    requires items != [] && Proper(items, id, owner) && Owned(db, owner) && Truthful(db)
    ensures Owned(Committed(db, items), owner) && Truthful(Committed(db, items))
  {
    CommittedRows(db, items, id, owner);
    CommittedParts(db, items, id);
    UpsertItemsDocuments(ClearChunks(db, id), items, id);
    ItemIDCount(items);
    hide UpsertItems, Committed, Rows, ItemIDs;
  }

  // ----- Where chunks come from -----

  /** The document and the part that gave the chunk at position `k`. */
  function Origin(docs: seq<Document>, known: seq<string>, size: nat, step: nat, k: nat): (r: (nat, nat))
    requires 0 < step <= size && k < |ChunksOfAll(docs, known, size, step)|
    ensures r.0 < |docs| && r.1 < |ChunksOf(docs[r.0], known, size, step)|
    ensures ChunksOfAll(docs, known, size, step)[k] == ChunksOf(docs[r.0], known, size, step)[r.1]
    decreases |docs|
  {
    var n := |docs| - 1;
    var init := ChunksOfAll(docs[..n], known, size, step);
    if k < |init| then Origin(docs[..n], known, size, step, k) else (n, k - |init|)
  }

  lemma {:induction false} OriginsAreDistinct(docs: seq<Document>, known: seq<string>, size: nat, step: nat, j: nat,
                                              k: nat)
    requires 0 < step <= size && j < k < |ChunksOfAll(docs, known, size, step)|
    ensures Origin(docs, known, size, step, j) != Origin(docs, known, size, step, k)
    decreases |docs|
  {
    var n := |docs| - 1;
    var init := ChunksOfAll(docs[..n], known, size, step);
    if k < |init| {
      OriginsAreDistinct(docs[..n], known, size, step, j, k);
    }
  }

  lemma {:induction false} Position(docs: seq<Document>, known: seq<string>, size: nat, step: nat, i: nat, part: nat)
    returns (k: nat)
    requires 0 < step <= size && i < |docs| && part < |ChunksOf(docs[i], known, size, step)|
    ensures k < |ChunksOfAll(docs, known, size, step)| && Origin(docs, known, size, step, k) == (i, part)
    decreases |docs|
  {
    hide ChunksOf, TranslationKey;
    var n := |docs| - 1;
    if i < n {
      assert docs[..n][i] == docs[i];
      k := Position(docs[..n], known, size, step, i, part);
    } else {
      k := |ChunksOfAll(docs[..n], known, size, step)| + part;
    }
  }

  ghost predicate DistinctKeys(docs: seq<Document>, known: seq<string>) {
    forall i, j | 0 <= i < j < |docs| :: TranslationKey(docs[i], known) != TranslationKey(docs[j], known)
  }

  /** No two documents with text share a translation key. */
  ghost predicate KeyedApart(docs: seq<Document>, known: seq<string>) {
    forall i, j | 0 <= i < j < |docs| && Fields(docs[i].content) != [] && Fields(docs[j].content) != [] ::
      TranslationKey(docs[i], known) != TranslationKey(docs[j], known)
  }

  ghost predicate DistinctChunkIDs(docs: seq<Document>, known: seq<string>, size: nat, step: nat)
    requires 0 < step <= size
  {
    forall j, k | 0 <= j < k < |ChunksOfAll(docs, known, size, step)| ::
      ChunksOfAll(docs, known, size, step)[j].id != ChunksOfAll(docs, known, size, step)[k].id
  }

  lemma ChunkIDsDiffer(docs: seq<Document>, known: seq<string>, size: nat, step: nat, j: nat, k: nat)
    requires 0 < step <= size && KeyedApart(docs, known)
    requires j < k < |ChunksOfAll(docs, known, size, step)|
    ensures ChunksOfAll(docs, known, size, step)[j].id != ChunksOfAll(docs, known, size, step)[k].id
  {
    var a, b := Origin(docs, known, size, step, j), Origin(docs, known, size, step, k);
    OriginsAreDistinct(docs, known, size, step, j, k);
    NoChunksWithoutText(docs[a.0], known, size, step);
    NoChunksWithoutText(docs[b.0], known, size, step);
    var key1, key2 := TranslationKey(docs[a.0], known), TranslationKey(docs[b.0], known);
    if ChunkID(key1, a.1) == ChunkID(key2, b.1) {
      ChunkIDInjective(key1, a.1, key2, b.1);
    }
    hide ChunkID, Origin, ChunksOfAll, TranslationKey, Fields;
  }

  lemma NoChunksWithoutText(doc: Document, known: seq<string>, size: nat, step: nat)
    requires 0 < step <= size
    ensures ChunksOf(doc, known, size, step) == [] <==> Fields(doc.content) == []
  {
    hide Fields;
  }

  lemma SharedKeySharesID(docs: seq<Document>, known: seq<string>, size: nat, step: nat, i: nat, j: nat)
    requires 0 < step <= size && i < j < |docs| && Fields(docs[i].content) != [] && Fields(docs[j].content) != []
    requires TranslationKey(docs[i], known) == TranslationKey(docs[j], known)
    ensures !DistinctChunkIDs(docs, known, size, step)
  {
    NoChunksWithoutText(docs[i], known, size, step);
    NoChunksWithoutText(docs[j], known, size, step);
    var a := Position(docs, known, size, step, i, 0);
    var b := Position(docs, known, size, step, j, 0);
    hide ChunkID, Origin, ChunksOfAll, TranslationKey, Fields;
    assert a != b;
    assert ChunksOfAll(docs, known, size, step)[a].id == ChunksOfAll(docs, known, size, step)[b].id;
  }

  /** The chunks of a group have distinct ids exactly when no two of its documents with text share a key. */
  lemma ChunkIDsAreDistinctIff(docs: seq<Document>, known: seq<string>, size: nat, step: nat)
    requires 0 < step <= size
    ensures DistinctChunkIDs(docs, known, size, step) <==> KeyedApart(docs, known)
  {
    hide ChunksOfAll, TranslationKey, Fields;
    if KeyedApart(docs, known) {
      forall j, k | 0 <= j < k < |ChunksOfAll(docs, known, size, step)|
        ensures ChunksOfAll(docs, known, size, step)[j].id != ChunksOfAll(docs, known, size, step)[k].id
      {
        ChunkIDsDiffer(docs, known, size, step, j, k);
      }
    } else {
      var i, j :| 0 <= i < j < |docs| && Fields(docs[i].content) != [] && Fields(docs[j].content) != []
                  && TranslationKey(docs[i], known) == TranslationKey(docs[j], known);
      SharedKeySharesID(docs, known, size, step, i, j);
    }
  }

  lemma EmbeddedChunks(embed: string -> Result<seq<real>>, chunks: seq<Chunk>)
    requires EmbedAll(embed, chunks).Success?
    ensures |EmbedAll(embed, chunks).value| == |chunks|
    ensures forall i | 0 <= i < |chunks| :: EmbedAll(embed, chunks).value[i].chunk == chunks[i]
  {
    CollectIsPointwise(EmbedOne(embed), chunks);
  }

  // ----- A corpus without colliding ids -----

  /** Document ids that stay apart when their separators are flattened. */
  ghost predicate Corpus(ids: set<string>) {
    && (forall id | id in ids :: TrimSpace(id) == id && id != "")
    && (forall a, b | a in ids && b in ids && ReplaceSeparators(a) == ReplaceSeparators(b) :: a == b)
  }

  ghost predicate ChunkOf(id: string, code: string, part: nat, k: string) {
    IsCode(code) && k == ChunkID(ReplaceSeparators(id + ":" + code), part)
  }

  /** The document of the corpus a chunk id is made for. */
  ghost function OwnerID(ids: set<string>, k: string): (r: string)
    ensures (exists id, code, part: nat :: id in ids && ChunkOf(id, code, part, k)) ==>
              exists code, part: nat :: r in ids && ChunkOf(r, code, part, k)
  {
    if exists id, code, part: nat :: id in ids && ChunkOf(id, code, part, k)
    then var id, code, part: nat :| id in ids && ChunkOf(id, code, part, k); id
    else ""
  }

  ghost function Owner(ids: set<string>): string -> string {
    k => OwnerID(ids, k)
  }

  lemma OwnerIsUnique(ids: set<string>, id: string, code: string, part: nat)
    requires Corpus(ids) && id in ids && IsCode(code)
    ensures Owner(ids)(ChunkID(ReplaceSeparators(id + ":" + code), part)) == id
  {
    var k := ChunkID(ReplaceSeparators(id + ":" + code), part);
    assert ChunkOf(id, code, part, k);
    var owner := OwnerID(ids, k);
    var code', part': nat :| owner in ids && ChunkOf(owner, code', part', k);
    ChunkIDsCollideIff(id, code, part, owner, code', part');
  }

  /** An indexer whose process knows the languages it supports, as both commands set it up. */
  ghost predicate Coherent(s: Settings) {
    && Configured(s) && s.supported != []
    && forall i | 0 <= i < |s.supported| :: s.supported[i] in s.known
  }

  lemma VariantKey(s: Settings, d: Document, id: string, code: string)
    requires IsCode(code) && code in s.known && TrimSpace(id) == id && id != ""
    requires d.id == id && d.language == code && d.translationID == BuildTranslationID(id, code, s.known)
    ensures TranslationKey(d, s.known) == ReplaceSeparators(id + ":" + code)
  {
    CodesAreTrimmed(code);
    TrimSpaceFixedPoints(id);
    TrimSpaceFixedPoints(id + ":" + code);
    assert Trimmed(id + ":" + code);
  }

  /** The translation id of a document as every reader of the corpus builds it. */
  ghost predicate Ingested(d: Document, known: seq<string>) {
    exists lang :: d.translationID == BuildTranslationID(d.id, lang, known)
  }

  /** A group the pipeline may be given: documents of one id, in "local" mode as the corpus readers build them, in
      "llm" mode with coherent settings. */
  ghost predicate IsGroup(x: Indexer, docs: seq<Document>, id: string) {
    && docs != [] && SameID(docs, id)
    && if x.llm then Coherent(x.s) else forall i | 0 <= i < |docs| :: Ingested(docs[i], x.s.known)
  }

  lemma KeyOf(x: Indexer, d: Document, id: string) returns (code: string)
    requires Ingested(d, x.s.known) && d.id == id && TrimSpace(id) == id && id != ""
    ensures IsCode(code) && TranslationKey(d, x.s.known) == ReplaceSeparators(id + ":" + code)
  {
    var lang :| d.translationID == BuildTranslationID(d.id, lang, x.s.known);
    code := KnownLanguage(lang, x.s.known);
    CodesAreTrimmed(code);
    TrimSpaceFixedPoints(id);
    TrimSpaceFixedPoints(id + ":" + code);
    assert Trimmed(id + ":" + code);
    hide Normalize, TrimSpace, ReplaceSeparators;
  }

  /** Every variant is keyed by the document's id and a language code. */
  lemma GroupKeys(x: Indexer, docs: seq<Document>, state: DocumentState, id: string, i: nat) returns (code: string)
    requires IsGroup(x, docs, id) && TrimSpace(id) == id && id != ""
    requires Variants(x, docs, state).Success? && i < |Variants(x, docs, state).value|
    ensures Variants(x, docs, state).value[i].id == id
    ensures IsCode(code)
    ensures x.llm ==> i < |x.s.supported| && code == x.s.supported[i]
    ensures TranslationKey(Variants(x, docs, state).value[i], x.s.known) == ReplaceSeparators(id + ":" + code)
  {
    hide Completion, TranslationKey, ReplaceSeparators, TrimSpace;
    if x.llm {
      VariantKeys(x, docs, state, id);
      code := x.s.supported[i];
    } else {
      code := KeyOf(x, docs[i], id);
    }
  }

  /** What the pipeline hands to the store belongs to the document, in either mode. */
  lemma ItemsBelong(x: Indexer, docs: seq<Document>, state: DocumentState, id: string, ids: set<string>)
    requires IsGroup(x, docs, id) && Corpus(ids) && id in ids && Items(x, docs, state).Success?
    ensures Items(x, docs, state).value != [] && Belong(Items(x, docs, state).value, id, Owner(ids))
  {
    var s, variants, items := x.s, Variants(x, docs, state).value, Items(x, docs, state).value;
    var c := WithDefaults(x.cfg);
    ValidStep(c);
    EmbeddedChunks(x.embed, ChunksOfAll(variants, s.known, c.size, Step(c)));
    hide Variants, Items, ChunksOfAll, Owner, ChunkID, Origin, IsGroup, Step, TrimSpace, TranslationKey,
         ReplaceSeparators;
    forall k | 0 <= k < |items|
      ensures items[k].chunk.documentID == id && Owner(ids)(items[k].chunk.id) == id
    {
      var o := Origin(variants, s.known, c.size, Step(c), k);
      var code := GroupKeys(x, docs, state, id, o.0);
      OwnerIsUnique(ids, id, code, o.1);
    }
  }

  /** Its chunk ids are distinct always in "llm" mode, and in "local" mode exactly when no two documents with text
      share a translation key. */
  lemma ItemsAreDistinctIff(x: Indexer, docs: seq<Document>, state: DocumentState, id: string)
    requires IsGroup(x, docs, id) && TrimSpace(id) == id && id != "" && Items(x, docs, state).Success?
    ensures DistinctIDs(Items(x, docs, state).value) <==> x.llm || KeyedApart(docs, x.s.known)
  {
    var s, variants, items := x.s, Variants(x, docs, state).value, Items(x, docs, state).value;
    var c := WithDefaults(x.cfg);
    ValidStep(c);
    EmbeddedChunks(x.embed, ChunksOfAll(variants, s.known, c.size, Step(c)));
    ChunkIDsAreDistinctIff(variants, s.known, c.size, Step(c));
    if x.llm {
      VariantKeys(x, docs, state, id);
    }
    hide Completion, Items, ChunksOfAll, Step, TrimSpace, TranslationKey, Fields;
  }

  /** The variants of one document are keyed by their languages. */
  lemma VariantKeys(x: Indexer, docs: seq<Document>, state: DocumentState, id: string)
    requires Coherent(x.s) && docs != [] && SameID(docs, id) && TrimSpace(id) == id && id != ""
    requires Completion(x.s, x.t, docs, state).Success?
    ensures var variants := Completion(x.s, x.t, docs, state).value;
            && |variants| == |x.s.supported|
            && (forall i | 0 <= i < |variants| :: variants[i].id == id
                 && TranslationKey(variants[i], x.s.known) == ReplaceSeparators(id + ":" + x.s.supported[i]))
            && DistinctKeys(variants, x.s.known)
  {
    var s, variants := x.s, Completion(x.s, x.t, docs, state).value;
    CompletionIsTotal(s, x.t, docs, state, id);
    forall i | 0 <= i < |variants|
      ensures TranslationKey(variants[i], s.known) == ReplaceSeparators(id + ":" + s.supported[i])
    {
      VariantKey(s, variants[i], id, s.supported[i]);
    }
    forall i, j | 0 <= i < j < |variants|
      ensures TranslationKey(variants[i], s.known) != TranslationKey(variants[j], s.known)
    {
      KeysApart(id, s.supported[i], s.supported[j]);
    }
  }

  lemma KeysApart(id: string, c1: string, c2: string)
    requires IsCode(c1) && IsCode(c2) && c1 != c2
    ensures ReplaceSeparators(id + ":" + c1) != ReplaceSeparators(id + ":" + c2)
  {
    ReplaceSeparatorsOfID(id, c1);
    ReplaceSeparatorsOfID(id, c2);
    if ReplaceSeparators(id + ":" + c1) == ReplaceSeparators(id + ":" + c2) {
      SplitAtLast(ReplaceSeparators(id), ReplaceSeparators(id), c1, c2, '_');
    }
  }

  /** What the pipeline hands to the store is proper always in "llm" mode, and in "local" mode exactly when no two
      documents with text share a translation key. */
  lemma ItemsAreProperIff(x: Indexer, docs: seq<Document>, state: DocumentState, id: string, ids: set<string>)
    requires IsGroup(x, docs, id) && Corpus(ids) && id in ids && Items(x, docs, state).Success?
    ensures Items(x, docs, state).value != []
    ensures Proper(Items(x, docs, state).value, id, Owner(ids)) <==> x.llm || KeyedApart(docs, x.s.known)
  {
    ItemsBelong(x, docs, state, id, ids);
    ItemsAreDistinctIff(x, docs, state, id);
    hide Items, Belong, DistinctIDs, IsGroup, KeyedApart, TrimSpace;
  }

  // ----- All runs -----

  /** One attempt to index one document: in whatever mode, with whatever settings, content and previous state, it
      commits or it does not. */
  datatype Attempt = Attempt(x: Indexer, docs: seq<Document>, state: DocumentState, commits: bool)

  ghost predicate Allowed(a: Attempt, ids: set<string>) {
    a.docs != [] && a.docs[0].id in ids && IsGroup(a.x, a.docs, a.docs[0].id)
  }

  predicate Commits(a: Attempt) {
    a.commits && Items(a.x, a.docs, a.state).Success?
  }

  function After(db: Database, a: Attempt): Database {
    if Commits(a) then Committed(db, Items(a.x, a.docs, a.state).value) else db
  }

  function Run(db: Database, attempts: seq<Attempt>): Database {
    if attempts == [] then db else After(Run(db, attempts[..|attempts| - 1]), attempts[|attempts| - 1])
  }

  const EMPTY := Database(map[], map[], map[])

  /** The last attempt that committed the document, or -1. */
  function LastCommit(attempts: seq<Attempt>, id: string): (i: int)
    ensures -1 <= i < |attempts|
    ensures i >= 0 ==> Commits(attempts[i]) && attempts[i].docs != [] && attempts[i].docs[0].id == id
  {
    if attempts == [] then -1
    else
      var n := |attempts| - 1;
      if Commits(attempts[n]) && attempts[n].docs != []
      && attempts[n].docs[0].id == id then n else LastCommit(attempts[..n], id)
  }

  /** The document's rows and its mark are those of its last commit. */
  ghost predicate ShowsLast(db: Database, attempts: seq<Attempt>, id: string) {
    var i := LastCommit(attempts, id);
    if i < 0 then id !in db.documents
    else
      var items := Items(attempts[i].x, attempts[i].docs, attempts[i].state).value;
      && id in db.documents && db.documents[id].complete && db.documents[id].chunkCount == |items|
      && Rows(db, id) == ItemIDs(items)
  }

  lemma CommitShows(db: Database, items: seq<EmbeddedChunk>, id: string, owner: string -> string)
    requires items != [] && Belong(items, id, owner) && Owned(db, owner)
    ensures var after := Committed(db, items);
            && Owned(after, owner)
            && id in after.documents && after.documents[id].complete && after.documents[id].chunkCount == |items|
            && Rows(after, id) == ItemIDs(items)
            && forall d | d != id ::
                 && Rows(after, d) == Rows(db, d)
                 && (d in after.documents <==> d in db.documents)
                 && (d in db.documents ==> after.documents[d] == db.documents[d])
  {
    CommittedRows(db, items, id, owner);
    CommittedParts(db, items, id);
    UpsertItemsDocuments(ClearChunks(db, id), items, id);
    hide UpsertItems, Committed, Rows, ItemIDs;
  }

  lemma {:induction false} RunsShowLast(ids: set<string>, attempts: seq<Attempt>)
    requires Corpus(ids) && forall i | 0 <= i < |attempts| :: Allowed(attempts[i], ids)
    ensures Owned(Run(EMPTY, attempts), Owner(ids))
    ensures forall id :: ShowsLast(Run(EMPTY, attempts), attempts, id)
    decreases |attempts|
  {
    hide Items, Committed, Owner, Rows, ItemIDs, Corpus, IsGroup, Owned;
    if attempts == [] {
      NothingIsOwned(ids);
    } else {
      var n := |attempts| - 1;
      var a, before := attempts[n], Run(EMPTY, attempts[..n]);
      RunsShowLast(ids, attempts[..n]);
      if Commits(a) {
        ItemsBelong(a.x, a.docs, a.state, a.docs[0].id, ids);
        CommitShows(before, Items(a.x, a.docs, a.state).value, a.docs[0].id, Owner(ids));
      }
      forall id
        ensures ShowsLast(Run(EMPTY, attempts), attempts, id)
      {
        assert ShowsLast(before, attempts[..n], id);
      }
    }
  }

  lemma NothingIsOwned(ids: set<string>)
    ensures Owned(EMPTY, Owner(ids))
  {
  }

  /** What the last commit of a document stored had distinct chunk ids: it ran in "llm" mode, or no two of its
      documents with text share a translation key. */
  ghost predicate StoredWhole(attempts: seq<Attempt>, id: string) {
    var i := LastCommit(attempts, id);
    i >= 0 ==> attempts[i].x.llm || KeyedApart(attempts[i].docs, attempts[i].x.s.known)
  }

  lemma CountIsTrueIff(ids: set<string>, attempts: seq<Attempt>, id: string)
    requires Corpus(ids) && forall i | 0 <= i < |attempts| :: Allowed(attempts[i], ids)
    requires id in Run(EMPTY, attempts).documents
    ensures Run(EMPTY, attempts).documents[id].complete
    ensures |Rows(Run(EMPTY, attempts), id)| == Run(EMPTY, attempts).documents[id].chunkCount
            <==> StoredWhole(attempts, id)
  {
    RunsShowLast(ids, attempts);
    hide Run, Items, Rows, ItemIDs, KeyedApart, DistinctIDs, IsGroup, Owned;
    assert ShowsLast(Run(EMPTY, attempts), attempts, id);
    var a := attempts[LastCommit(attempts, id)];
    ItemsAreDistinctIff(a.x, a.docs, a.state, id);
    ItemIDCount(Items(a.x, a.docs, a.state).value);
  }

  /** Crash safety: after any attempts in any mix of modes on a corpus without colliding ids, interrupted or not, no
      chunk row belongs to another document; and every document marked complete has exactly the chunk rows it
      claims if and only if every last commit was in "llm" mode or of documents with keys of their own. */
  lemma CompletenessMarksAreTruthfulIff(ids: set<string>, attempts: seq<Attempt>)
    requires Corpus(ids) && forall i | 0 <= i < |attempts| :: Allowed(attempts[i], ids)
    ensures Owned(Run(EMPTY, attempts), Owner(ids))
    ensures Truthful(Run(EMPTY, attempts)) <==> forall id | id in ids :: StoredWhole(attempts, id)
  {
    RunsShowLast(ids, attempts);
    hide Run, Rows, Allowed, Corpus, Owned;
    forall id | id in Run(EMPTY, attempts).documents
      ensures id in ids && Run(EMPTY, attempts).documents[id].complete
      ensures |Rows(Run(EMPTY, attempts), id)| == Run(EMPTY, attempts).documents[id].chunkCount
              <==> StoredWhole(attempts, id)
    {
      assert ShowsLast(Run(EMPTY, attempts), attempts, id);
      InCorpus(ids, attempts, id);
      CountIsTrueIff(ids, attempts, id);
    }
    forall id | !StoredWhole(attempts, id)
      ensures id in Run(EMPTY, attempts).documents
    {
      assert ShowsLast(Run(EMPTY, attempts), attempts, id);
    }
  }

  lemma InCorpus(ids: set<string>, attempts: seq<Attempt>, id: string)
    requires LastCommit(attempts, id) >= 0 && forall i | 0 <= i < |attempts| :: Allowed(attempts[i], ids)
    ensures id in ids
  {
    assert Allowed(attempts[LastCommit(attempts, id)], ids);
    hide Items, IsGroup;
  }

  lemma {:induction false} ExpectedIsChunkCount(docs: seq<Document>, known: seq<string>, size: nat, step: nat)
    requires 0 < step <= size
    ensures SumCounts(docs, size, step) == |ChunksOfAll(docs, known, size, step)|
    decreases |docs|
  {
    if docs != [] {
      ExpectedIsChunkCount(docs[..|docs| - 1], known, size, step);
    }
  }

  /** A document the next run skips has as many stored chunks as chunking its present text would give, exactly when
      its last commit stored all of its chunks; a partly written document is therefore never skipped. */
  lemma SkippedDocumentsAreFullyStoredIff(ids: set<string>, attempts: seq<Attempt>, h: Hash, docs: seq<Document>,
                                          id: string,
                                          required: set<string>, cfg: ChunkConfig, known: seq<string>)
    requires Corpus(ids) && forall i | 0 <= i < |attempts| :: Allowed(attempts[i], ids)
    requires ShouldSkip(h, docs, StateOf(Run(EMPTY, attempts), id), required, cfg)
    requires Valid(WithDefaults(cfg))
    ensures ChunkResult(docs, cfg, known).Success? && LastCommit(attempts, id) >= 0
    ensures |Rows(Run(EMPTY, attempts), id)| == |ChunkResult(docs, cfg, known).value| <==> StoredWhole(attempts, id)
  {
    RunsShowLast(ids, attempts);
    assert ShowsLast(Run(EMPTY, attempts), attempts, id);
    var c := WithDefaults(cfg);
    ValidStep(c);
    ExpectedIsChunkCount(docs, known, c.size, Step(c));
    hide Run, Rows, Items, StoredWhole, HasReadyTranslations, FingerprintMatches, ContentHashesMatch;
    CountIsTrueIff(ids, attempts, id);
  }
}
