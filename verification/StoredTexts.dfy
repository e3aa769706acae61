/** What a committed run leaves in the chunk table, as the search reads it back (backend/internal/rag/store.go). */
module StoredTexts {
  import opened Text
  import opened Documents
  import opened ChunkIds
  import opened Chunking
  import opened Translations
  import opened IndexStore
  import opened IndexSkip
  import opened IndexRuns
  import opened Reindexing

  ghost predicate HasParts(chunks: map<string, ChunkRow>, key: string, parts: nat) {
    forall k: nat | k < parts :: ChunkID(key, k) in chunks
  }

  /** The words of the stored texts under a key, in order of their parts. */
  ghost function WordsUnder(chunks: map<string, ChunkRow>, key: string, parts: nat): (r: seq<seq<string>>)
    requires HasParts(chunks, key, parts)
    ensures |r| == parts
  {
    seq(parts, k requires 0 <= k < parts => Fields(chunks[ChunkID(key, k)].text))
  }

  /** The rows under a key belong to the document, are in the language, count their own words, and together give back
      `words` once each is freed of the overlap with the one before. */
  ghost predicate HoldsText(chunks: map<string, ChunkRow>, id: string, lang: string, key: string, parts: nat,
                            overlap: nat, words: seq<string>)
  {
    && HasParts(chunks, key, parts)
    && (forall k: nat | k < parts ::
          var row := chunks[ChunkID(key, k)];
          row.documentID == id && row.lang == lang && row.tokenCount == |Fields(row.text)|)
    && Rejoin(WordsUnder(chunks, key, parts), overlap) == words
  }

  lemma ItemAt(x: Indexer, docs: seq<Document>, state: DocumentState, size: nat, step: nat, i: nat, k: nat)
    returns (p: nat)
    requires Items(x, docs, state).Success? && 0 < step < size && size == SizeOf(x) && step == StepOf(x)
    requires Variants(x, docs, state).Success? && i < |Variants(x, docs, state).value|
    requires k < |ChunksOf(Variants(x, docs, state).value[i], x.s.known, size, step)|
    ensures p < |Items(x, docs, state).value|
    ensures Items(x, docs, state).value[p].chunk
            == ChunksOf(Variants(x, docs, state).value[i], x.s.known, size, step)[k]
  {
    hide Items, Variants, ChunksOf, ChunksOfAll, Base, SizeOf, StepOf;
    var variants := Variants(x, docs, state).value;
    ItemsAreChunks(x, docs, state, size, step);
    ChunkAtBase(variants, x.s.known, size, step, i, k);
    p := Base(variants, x.s.known, size, step, i) + k;
  }

  lemma ItemsAreChunks(x: Indexer, docs: seq<Document>, state: DocumentState, size: nat, step: nat)
    requires Items(x, docs, state).Success? && 0 < step < size && size == SizeOf(x) && step == StepOf(x)
    requires Variants(x, docs, state).Success?
    ensures var cs := ChunksOfAll(Variants(x, docs, state).value, x.s.known, size, step);
            && |Items(x, docs, state).value| == |cs|
            && forall p | 0 <= p < |cs| :: Items(x, docs, state).value[p].chunk == cs[p]
  {
    hide Variants, ChunksOfAll, EmbedAll;
    EmbeddedChunks(x.embed, ChunksOfAll(Variants(x, docs, state).value, x.s.known, size, step));
  }

  /** Every chunk is stored with the vector of its own text. */
  lemma EachTextHasItsVector(x: Indexer, docs: seq<Document>, state: DocumentState, p: nat)
    requires Items(x, docs, state).Success? && p < |Items(x, docs, state).value|
    ensures var item := Items(x, docs, state).value[p]; x.embed(item.chunk.text) == Success(item.vector)
  {
    hide Variants, ChunkResult;
    CollectIsPointwise(EmbedOne(x.embed), ChunkResult(Variants(x, docs, state).value, x.cfg, x.s.known).value);
  }

  lemma SettingsAreValid(x: Indexer, docs: seq<Document>, state: DocumentState)
    requires Items(x, docs, state).Success?
    ensures Variants(x, docs, state).Success? && 0 < StepOf(x) < SizeOf(x)
  {
    ValidStep(WithDefaults(x.cfg));
    hide Variants;
  }

  /** A chunk is stored under its id as it is: document, language, text and token count. */
  lemma ChunkIsStored(x: Indexer, docs: seq<Document>, state: DocumentState, db: Database, id: string, p: nat)
    requires IsGroup(x, docs, id) && TrimSpace(id) == id && id != "" && Items(x, docs, state).Success?
    requires x.llm || KeyedApart(docs, x.s.known)
    requires p < |Items(x, docs, state).value|
    ensures var c, rows := Items(x, docs, state).value[p].chunk, Committed(db, Items(x, docs, state).value).chunks;
            && c.id in rows && rows[c.id].documentID == id && rows[c.id].text == c.text
            && rows[c.id].lang == NormalizeNonEmpty(c.language, "fr") && rows[c.id].tokenCount == c.tokenCount
  {
    hide Items, IsGroup, KeyedApart, Committed, UpsertItems, TrimSpace, ItemIDs;
    var items := Items(x, docs, state).value;
    ItemsBelong(x, docs, state, id, {id});
    ItemsAreDistinctIff(x, docs, state, id);
    CommittedParts(db, items, id);
    IsItemID(items, p);
    var j := UpsertItemsContents(ClearChunks(db, id), items, items[p].chunk.id);
    assert j == p;
    hide Owner;
  }

  lemma IsItemID(items: seq<EmbeddedChunk>, p: nat)
    requires p < |items|
    ensures items[p].chunk.id in ItemIDs(items)
  {
  }

  /** Every text of a committed run is stored whole, in "llm" mode and of documents with keys of their own in "local"
      mode: under its document and its language, in as many parts as it has windows, it can be read back from the
      chunk table word by word. */
  lemma TextIsStoredWhole(x: Indexer, docs: seq<Document>, state: DocumentState, db: Database, id: string, i: nat)
    returns (code: string)
    requires IsGroup(x, docs, id) && TrimSpace(id) == id && id != "" && Items(x, docs, state).Success?
    requires x.llm || KeyedApart(docs, x.s.known)
    requires Variants(x, docs, state).Success? && i < |Variants(x, docs, state).value|
    ensures 0 < StepOf(x) < SizeOf(x) && IsCode(code)
    ensures x.llm ==> i < |x.s.supported| && code == x.s.supported[i]
    ensures var v := Variants(x, docs, state).value[i];
            HoldsText(Committed(db, Items(x, docs, state).value).chunks, id, NormalizeNonEmpty(v.language, "fr"),
                      ReplaceSeparators(id + ":" + code), ExpectedCount(|Fields(v.content)|, SizeOf(x), StepOf(x)),
                      SizeOf(x) - StepOf(x), Fields(v.content))
  {
    hide Items, IsGroup, KeyedApart, Committed, Variants, TrimSpace, SizeOf, StepOf, Fields, ReplaceSeparators, ChunkID,
         Spans, NormalizeNonEmpty;
    SettingsAreValid(x, docs, state);
    code := GroupKeys(x, docs, state, id, i);
    var v, size, step := Variants(x, docs, state).value[i], SizeOf(x), StepOf(x);
    var key, rows := ReplaceSeparators(id + ":" + code), Committed(db, Items(x, docs, state).value).chunks;
    var cs := ChunksOf(v, x.s.known, size, step);
    forall k: nat | k < |cs|
      ensures ChunkID(key, k) in rows
      ensures rows[ChunkID(key, k)].documentID == id && rows[ChunkID(key, k)].text == cs[k].text
      ensures rows[ChunkID(key, k)].lang == NormalizeNonEmpty(v.language, "fr")
      ensures rows[ChunkID(key, k)].tokenCount == |Fields(rows[ChunkID(key, k)].text)|
    {
      var p := ItemAt(x, docs, state, size, step, i, k);
      ChunkIsStored(x, docs, state, db, id, p);
      ChunkTokens(v, x.s.known, size, step, k);
      ChunkOfVariant(v, x.s.known, size, step, k);
    }
    ChunkingRoundTrips(v, x.s.known, size, step);
    assert WordsUnder(rows, key, |cs|) == ChunkWindows(cs);
    PartsOf(v, x.s.known, size, step);
  }

  lemma ChunkOfVariant(v: Document, known: seq<string>, size: nat, step: nat, k: nat)
    requires 0 < step <= size && k < |ChunksOf(v, known, size, step)|
    ensures var c := ChunksOf(v, known, size, step)[k];
            c.id == ChunkID(TranslationKey(v, known), k) && c.language == v.language
  {
    hide Fields, Spans, TranslationKey, ChunkID;
  }

  lemma PartsOf(v: Document, known: seq<string>, size: nat, step: nat)
    requires 0 < step <= size
    ensures |ChunksOf(v, known, size, step)| == ExpectedCount(|Fields(v.content)|, size, step)
  {
    hide Fields;
  }

  // ----- When a run gets as far as the store -----

  /** The texts that are embedded, in the order of their chunks. */
  function EmbeddedTexts(x: Indexer, variants: seq<Document>): seq<string>
    requires 0 < StepOf(x) < SizeOf(x)
  {
    var cs := ChunksOfAll(variants, x.s.known, SizeOf(x), StepOf(x));
    seq(|cs|, k requires 0 <= k < |cs| => cs[k].text)
  }

  ghost predicate AnyText(docs: seq<Document>) {
    exists i :: 0 <= i < |docs| && Fields(docs[i].content) != []
  }

  ghost predicate CanEmbed(x: Indexer, texts: seq<string>) {
    forall k | 0 <= k < |texts| :: x.embed(texts[k]).Success?
  }

  /** A run gets as far as the store exactly when there are variants, the chunk settings are valid, some variant has
      text, and every chunk's text can be embedded. */
  lemma ItemsSucceedIff(x: Indexer, docs: seq<Document>, state: DocumentState)
    ensures Valid(WithDefaults(x.cfg)) ==> 0 < StepOf(x) < SizeOf(x)
    ensures Items(x, docs, state).Success?
            <==> && Variants(x, docs, state).Success? && Valid(WithDefaults(x.cfg))
                 && AnyText(Variants(x, docs, state).value)
                 && CanEmbed(x, EmbeddedTexts(x, Variants(x, docs, state).value))
  {
    hide Variants, ChunksOfAll, AnyText, EmbedAll, Valid;
    var variants := Variants(x, docs, state);
    if Valid(WithDefaults(x.cfg)) {
      ValidStep(WithDefaults(x.cfg));
      hide WithDefaults, Step;
      if variants.Success? {
        SomeChunksIff(variants.value, x.s.known, SizeOf(x), StepOf(x));
        NothingToSay();
        EmbeddingSucceedsIff(x, variants.value);
        ResultSucceedsIff(variants.value, x.cfg, x.s.known);
      }
    }
  }

  lemma ResultSucceedsIff(docs: seq<Document>, cfg: ChunkConfig, known: seq<string>)
    requires Valid(WithDefaults(cfg)) && 0 < Step(WithDefaults(cfg)) < WithDefaults(cfg).size
    ensures var c, r := WithDefaults(cfg), ChunkResult(docs, cfg, known);
            if ChunksOfAll(docs, known, c.size, Step(c)) == [] then r.Failure?
            else r == Success(ChunksOfAll(docs, known, c.size, Step(c)))
  {
    hide WithDefaults, Step;
  }

  lemma NothingToSay()
    ensures !AnyText([])
  {
  }

  lemma AnyTextGrows(docs: seq<Document>)
    requires docs != []
    ensures var n := |docs| - 1; AnyText(docs) <==> AnyText(docs[..n]) || Fields(docs[n].content) != []
  {
    hide Fields;
    var n := |docs| - 1;
    if i :| 0 <= i < n && Fields(docs[i].content) != [] {
      assert Fields(docs[..n][i].content) != [];
    }
    if i :| 0 <= i < n && Fields(docs[..n][i].content) != [] {
      assert Fields(docs[i].content) != [];
    }
  }

  lemma {:induction false} SomeChunksIff(docs: seq<Document>, known: seq<string>, size: nat, step: nat)
    requires 0 < step <= size
    ensures ChunksOfAll(docs, known, size, step) != [] <==> AnyText(docs)
    decreases |docs|
  {
    hide Fields, ChunksOf;
    if docs == [] {
      NothingToSay();
    } else {
      var n := |docs| - 1;
      hide ChunksOfAll, AnyText;
      AllChunksGrow(docs, known, size, step);
      SomeChunksIff(docs[..n], known, size, step);
      NoChunksWithoutText(docs[n], known, size, step);
      AnyTextGrows(docs);
    }
  }

  lemma EmbeddingSucceedsIff(x: Indexer, variants: seq<Document>)
    requires 0 < StepOf(x) < SizeOf(x)
    ensures EmbedAll(x.embed, ChunksOfAll(variants, x.s.known, SizeOf(x), StepOf(x))).Success?
            <==> CanEmbed(x, EmbeddedTexts(x, variants))
  {
    hide ChunksOfAll, SizeOf, StepOf;
    var cs := ChunksOfAll(variants, x.s.known, SizeOf(x), StepOf(x));
    CollectIsPointwise(EmbedOne(x.embed), cs);
    forall k | 0 <= k < |cs|
      ensures EmbedOne(x.embed)(cs[k]).Success? <==> x.embed(EmbeddedTexts(x, variants)[k]).Success?
    {
    }
  }
}
