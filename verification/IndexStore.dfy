/** The index database and the transaction that replaces a document's chunks
    (backend/internal/rag/store.go). Only the row-level effect of each statement is kept. */
module IndexStore {
  import opened Text
  import opened Documents
  import opened Lists
  import opened Chunking

  datatype DocumentRow = DocumentRow(fingerprint: string, confidence: string, complete: bool, chunkCount: int)
  datatype ChunkRow = ChunkRow(documentID: string, lang: string, text: string, tokenCount: int)

  /** Translations are unique by (document id, language); chunks by their id. */
  datatype Database = Database(
    documents: map<string, DocumentRow>,
    translations: map<(string, string), TranslationState>,
    chunks: map<string, ChunkRow>)

  datatype EmbeddedChunk = EmbeddedChunk(chunk: Chunk, vector: seq<real>)

  // ----- The statements -----

  function ClearChunks(db: Database, documentID: string): Database {
    db.(chunks := map id | id in db.chunks && db.chunks[id].documentID != documentID :: db.chunks[id])
  }

  function Lang(c: Chunk): string {
    NormalizeNonEmpty(c.language, "fr")
  }

  function UpsertDocument(db: Database, c: Chunk): Database {
    db.(documents := db.documents[c.documentID := DocumentRow(c.source.fingerprint, c.source.confidence, false, 0)])
  }

  /** The stored content is the text of the one chunk at hand. */
  function RowOf(c: Chunk): TranslationState {
    TranslationState(NormalizeNonEmpty(c.translationID, c.documentID + ":" + Lang(c)),
                     NormalizeNonEmpty(c.title, "Sans titre"), c.text,
                     c.metadata.status, c.metadata.provider, c.metadata.sourceHash, c.metadata.contentHash)
  }

  function UpsertTranslation(db: Database, c: Chunk): Database {
    db.(translations := db.translations[(c.documentID, Lang(c)) := RowOf(c)])
  }

  function ChunkRowOf(c: Chunk): ChunkRow { ChunkRow(c.documentID, Lang(c), c.text, c.tokenCount) }

  function UpsertChunk(db: Database, c: Chunk): Database {
    db.(chunks := db.chunks[c.id := ChunkRowOf(c)])
  }

  function MarkComplete(db: Database, documentID: string, count: int): Database {
    if documentID in db.documents then
      db.(documents := db.documents[documentID := db.documents[documentID].(complete := true, chunkCount := count)])
    else db
  }

  function UpsertItem(db: Database, c: Chunk): Database {
    UpsertChunk(UpsertTranslation(UpsertDocument(db, c), c), c)
  }

  function UpsertItems(db: Database, items: seq<EmbeddedChunk>): Database {
    if items == [] then db
    else UpsertItem(UpsertItems(db, items[..|items| - 1]), items[|items| - 1].chunk)
  }

  /** What a committed transaction leaves. */
  function Committed(db: Database, items: seq<EmbeddedChunk>): Database {
    if items == [] then db
    else
      var id := TrimSpace(items[0].chunk.documentID);
      MarkComplete(UpsertItems(ClearChunks(db, id), items), id, |items|)
  }

  /** The checks upsertDocumentChunks makes itself. */
  predicate WellFormed(items: seq<EmbeddedChunk>, dimension: nat) {
    items != [] ==>
      && TrimSpace(items[0].chunk.documentID) != ""
      && forall i | 0 <= i < |items| ::
           && TrimSpace(items[i].chunk.documentID) == TrimSpace(items[0].chunk.documentID)
           && |items[i].vector| == dimension
  }

  // ----- The store -----

  class PostgresVectorStore {
    var db: Database
    const dimension: nat

    constructor (dimension: nat)
      ensures db == Database(map[], map[], map[]) && this.dimension == dimension
    {
      db := Database(map[], map[], map[]);
      this.dimension := dimension;
    }

    /** One transaction. `alive(n)` says whether the n-th database statement is carried out; when it is not
        (an error, a cancelled context, a crash) the transaction is rolled back. */
    method UpsertDocumentChunks(items: seq<EmbeddedChunk>, alive: nat -> bool) returns (ok: bool)
      modifies this`db
      ensures db == if ok then Committed(old(db), items) else old(db)
      ensures ok ==> WellFormed(items, dimension)
      ensures ok && items != [] ==>
                && TrimSpace(items[0].chunk.documentID) != ""
                && forall i | 0 <= i < |items| :: |items[i].vector| == dimension
                     && TrimSpace(items[i].chunk.documentID) == TrimSpace(items[0].chunk.documentID)
      ensures WellFormed(items, dimension) && (forall n :: alive(n)) ==> ok
    {
      if items == [] {
        return true;
      }
      var documentID := TrimSpace(items[0].chunk.documentID);
      if documentID == "" {
        return false;
      }
      for i := 0 to |items|
        invariant forall j | 0 <= j < i :: TrimSpace(items[j].chunk.documentID) == documentID
      {
        if TrimSpace(items[i].chunk.documentID) != documentID {
          return false;
        }
      }
      if !alive(0) || !alive(1) {
        return false;
      }
      var written, tx := WriteItems(ClearChunks(db, documentID), items, alive);
      if !written || !alive(3 * |items| + 2) || !alive(3 * |items| + 3) {
        return false;
      }
      db := MarkComplete(tx, documentID, |items|);
      return true;
    }

    /** The statements of the transaction's loop, on the transaction's own view of the database. */
    method WriteItems(start: Database, items: seq<EmbeddedChunk>, alive: nat -> bool) returns (ok: bool, tx: Database)
      ensures ok ==> tx == UpsertItems(start, items)
      ensures ok ==> forall i | 0 <= i < |items| :: |items[i].vector| == dimension
      ensures (forall i | 0 <= i < |items| :: |items[i].vector| == dimension) && (forall n :: alive(n)) ==> ok
    {
      hide UpsertDocument, UpsertTranslation, UpsertChunk;
      tx := start;
      for i := 0 to |items|
        invariant tx == UpsertItems(start, items[..i])
        invariant forall j | 0 <= j < i :: |items[j].vector| == dimension
      {
        var c := items[i].chunk;
        if |items[i].vector| != dimension || !alive(3 * i + 2) || !alive(3 * i + 3) || !alive(3 * i + 4) {
          return false, start;
        }
        assert items[..i + 1][..i] == items[..i];
        tx := UpsertDocument(tx, c);
        tx := UpsertTranslation(tx, c);
        tx := UpsertChunk(tx, c);
      }
      assert items[..|items|] == items;
      return true, tx;
    }

    /** Reads back the rows of the given documents, by two queries; `alive(n)` says whether the n-th one gets
        through. Without any id that is not blank, nothing is asked. */
    method LoadIndexState(documentIDs: seq<string>, alive: nat -> bool)
      returns (state: Option<map<string, DocumentState>>)
      ensures state.Some? ==> state.value == LoadedState(db, set id | id in documentIDs)
      ensures state.Some? <==> WantedIDs(set id | id in documentIDs) == {} || (alive(0) && alive(1))
    {
      var ids: set<string> := {};
      for i := 0 to |documentIDs|
        invariant ids == (set j | 0 <= j < i && TrimSpace(documentIDs[j]) != "" :: TrimSpace(documentIDs[j]))
      {
        if TrimSpace(documentIDs[i]) != "" {
          ids := ids + {TrimSpace(documentIDs[i])};
        }
      }
      assert ids == WantedIDs(set id | id in documentIDs);
      if ids == {} {
        return Some(map[]);
      }
      if !alive(0) || !alive(1) {
        return None;
      }
      state := Some(map id | id in ids && HasRows(db, id) :: StateOf(db, id));
    }
  }

  function WantedIDs(documentIDs: set<string>): set<string> {
    set id | id in documentIDs && TrimSpace(id) != "" :: TrimSpace(id)
  }

  predicate HasRows(db: Database, id: string) {
    id in db.documents || exists key | key in db.translations :: key.0 == id
  }

  /** One document's rows. */
  function StateOf(db: Database, id: string): DocumentState {
    var translations := map key | key in db.translations && key.0 == id :: key.1 := db.translations[key];
    if id in db.documents then
      var row := db.documents[id];
      DocumentState(row.fingerprint, row.confidence, row.complete, row.chunkCount, translations)
    else NO_STATE.(translations := translations)
  }

  function LoadedState(db: Database, documentIDs: set<string>): map<string, DocumentState> {
    map id | id in WantedIDs(documentIDs) && HasRows(db, id) :: StateOf(db, id)
  }

  /** What is loaded: an entry for every wanted id that has a document row or a translation, with all of its
      translations, and the fingerprint, mark and count of its document row if there is one. */
  lemma LoadedStateMeans(db: Database, documentIDs: set<string>, id: string)
    ensures var loaded := LoadedState(db, documentIDs);
            && (id in loaded <==> && (exists d :: d in documentIDs && TrimSpace(d) == id) && id != ""
                                  && (id in db.documents || exists l :: (id, l) in db.translations))
            && (id in loaded ==>
                  && (forall l :: l in loaded[id].translations <==> (id, l) in db.translations)
                  && (forall l | l in loaded[id].translations :: loaded[id].translations[l] == db.translations[(id, l)])
                  && (id in db.documents ==>
                        var row := db.documents[id];
                        loaded[id].complete == row.complete && loaded[id].chunkCount == row.chunkCount
                        && loaded[id].fingerprint == row.fingerprint && loaded[id].confidence == row.confidence)
                  && (id !in db.documents ==> !loaded[id].complete && loaded[id].fingerprint == ""))
  {
    hide TrimSpace;
    assert id in WantedIDs(documentIDs) <==> (exists d :: d in documentIDs && TrimSpace(d) == id) && id != "";
    if l :| (id, l) in db.translations {
      assert HasRows(db, id);
    }
    if key :| key in db.translations && key.0 == id {
      assert (id, key.1) in db.translations;
    }
  }

  // ----- Chunk rows of a transaction -----

  /** The stored chunks of one document. */
  function Rows(db: Database, documentID: string): set<string> {
    set id | id in db.chunks && db.chunks[id].documentID == documentID
  }

  ghost predicate AllOf(items: seq<EmbeddedChunk>, documentID: string) {
    forall i | 0 <= i < |items| :: items[i].chunk.documentID == documentID
  }

  ghost function ItemIDs(items: seq<EmbeddedChunk>): set<string> {
    set i | 0 <= i < |items| :: items[i].chunk.id
  }

  /** A run of upserts adds the chunks of its items under their document and keeps all other chunks. */
  lemma {:induction false} UpsertItemsChunks(db: Database, items: seq<EmbeddedChunk>, id: string)
    requires AllOf(items, id)
    ensures var r := UpsertItems(db, items).chunks;
            && r.Keys == db.chunks.Keys + ItemIDs(items)
            && (forall k | k in ItemIDs(items) :: r[k].documentID == id)
            && (forall k | k in db.chunks && k !in ItemIDs(items) :: r[k] == db.chunks[k])
    decreases |items|
  {
    if items != [] {
      var n := |items| - 1;
      UpsertItemsChunks(db, items[..n], id);
      var c := items[n].chunk;
      assert ItemIDs(items) == ItemIDs(items[..n]) + {c.id};
      var before := UpsertItems(db, items[..n]);
      assert UpsertItem(before, c).chunks == before.chunks[c.id := ChunkRowOf(c)];
    }
  }

  /** Each new row holds its last item. */
  lemma {:induction false} UpsertItemsContents(db: Database, items: seq<EmbeddedChunk>, k: string) returns (i: nat)
    requires k in ItemIDs(items)
    ensures i < |items| && items[i].chunk.id == k && forall j | i < j < |items| :: items[j].chunk.id != k
    ensures k in UpsertItems(db, items).chunks && UpsertItems(db, items).chunks[k] == ChunkRowOf(items[i].chunk)
    decreases |items|
  {
    hide ChunkRowOf, ItemIDs, UpsertItems;
    var n := |items| - 1;
    LastUpsert(db, items);
    if items[n].chunk.id == k {
      i := n;
    } else {
      i := UpsertItemsContents(db, items[..n], k);
    }
  }

  lemma LastUpsert(db: Database, items: seq<EmbeddedChunk>)
    ensures items == [] ==> ItemIDs(items) == {}
    ensures items != [] ==>
              var n := |items| - 1;
              var c := items[n].chunk;
              && ItemIDs(items) == ItemIDs(items[..n]) + {c.id}
              && UpsertItems(db, items).chunks == UpsertItems(db, items[..n]).chunks[c.id := ChunkRowOf(c)]
  {
    hide ChunkRowOf;
  }

  /** It leaves its document's row incomplete and every other document's row alone. */
  lemma {:induction false} UpsertItemsDocuments(db: Database, items: seq<EmbeddedChunk>, id: string)
    requires AllOf(items, id)
    ensures var r := UpsertItems(db, items).documents;
            && (items != [] ==> id in r && !r[id].complete)
            && (forall d | d != id :: (d in r <==> d in db.documents) && (d in r ==> r[d] == db.documents[d]))
    decreases |items|
  {
    if items != [] {
      var n := |items| - 1;
      UpsertItemsDocuments(db, items[..n], id);
      var c := items[n].chunk;
      var before := UpsertItems(db, items[..n]);
      assert UpsertItem(before, c).documents
             == before.documents[c.documentID := DocumentRow(c.source.fingerprint, c.source.confidence, false, 0)];
    }
  }

  /** The position of the last of `items` in the given language, or -1. */
  function LastInLang(items: seq<EmbeddedChunk>, lang: string): (i: int)
    ensures -1 <= i < |items|
    ensures i >= 0 ==> Lang(items[i].chunk) == lang
    ensures forall j | i < j < |items| :: Lang(items[j].chunk) != lang
  {
    LastIndex(items, (e: EmbeddedChunk) => Lang(e.chunk) == lang)
  }

  /** The translation rows of other documents stay. */
  lemma {:induction false} UpsertItemsOthers(db: Database, items: seq<EmbeddedChunk>, id: string, key: (string, string))
    requires AllOf(items, id) && key.0 != id
    ensures var r := UpsertItems(db, items).translations;
            (key in r <==> key in db.translations) && (key in r ==> r[key] == db.translations[key])
    decreases |items|
  {
    if items != [] {
      var n := |items| - 1;
      UpsertItemsOthers(db, items[..n], id, key);
      var c, before := items[n].chunk, UpsertItems(db, items[..n]);
      assert UpsertItem(before, c).translations == before.translations[(c.documentID, Lang(c)) := RowOf(c)];
      hide RowOf, Lang;
    }
  }

  /** A language's translation row ends up as its last chunk wrote it; the rows of languages without a chunk
      stay. */
  lemma {:induction false} UpsertItemsTranslations(db: Database, items: seq<EmbeddedChunk>, id: string, lang: string)
    requires AllOf(items, id)
    ensures var r := UpsertItems(db, items).translations;
            var last := LastInLang(items, lang);
            && (last >= 0 ==> (id, lang) in r && r[(id, lang)] == RowOf(items[last].chunk))
            && (last < 0 ==> ((id, lang) in r <==> (id, lang) in db.translations)
                             && ((id, lang) in r ==> r[(id, lang)] == db.translations[(id, lang)]))
    decreases |items|
  {
    if items != [] {
      var n := |items| - 1;
      UpsertItemsTranslations(db, items[..n], id, lang);
      var c := items[n].chunk;
      var before := UpsertItems(db, items[..n]);
      assert UpsertItem(before, c).translations == before.translations[(c.documentID, Lang(c)) := RowOf(c)];
      hide RowOf, Lang;
    }
  }
}
