/** What the second run finds: which documents it skips, and which stored translations it can take over. */
module Reindexing {
  import opened Text
  import opened Documents
  import opened Lists
  import opened ChunkIds
  import opened Chunking
  import opened Translations
  import opened IndexStore
  import opened IndexSkip
  import opened IndexRuns

  /** A first run in "llm" mode that gets as far as the store. */
  ghost predicate FirstRun(x: Indexer, docs: seq<Document>, state: DocumentState, id: string) {
    && x.llm && Coherent(x.s) && docs != [] && SameID(docs, id) && TrimSpace(id) != ""
    && Items(x, docs, state).Success?
  }

  function SizeOf(x: Indexer): int { WithDefaults(x.cfg).size }
  function StepOf(x: Indexer): int { Step(WithDefaults(x.cfg)) }

  function VariantsOf(x: Indexer, docs: seq<Document>, state: DocumentState): seq<Document> {
    var r := Completion(x.s, x.t, docs, state);
    if r.Failure? then [] else r.value
  }

  lemma FirstRunParts(x: Indexer, docs: seq<Document>, state: DocumentState, id: string)
    requires FirstRun(x, docs, state, id)
    ensures Configured(x.s) && docs != [] && x.s.supported != [] && SameID(docs, id)
    ensures Completion(x.s, x.t, docs, state).Success? && 0 < StepOf(x) < SizeOf(x)
    ensures var chunks := ChunksOfAll(VariantsOf(x, docs, state), x.s.known, SizeOf(x), StepOf(x));
            chunks != [] && EmbedAll(x.embed, chunks) == Items(x, docs, state)
  {
    hide Completion, ChunksOfAll, Configured, SameID, TrimSpace, EmbedAll;
    ValidStep(WithDefaults(x.cfg));
  }

  lemma FirstRunItems(x: Indexer, docs: seq<Document>, state: DocumentState, id: string)
    requires FirstRun(x, docs, state, id)
    ensures 0 < StepOf(x) < SizeOf(x)
    ensures var variants := VariantsOf(x, docs, state);
            var chunks := ChunksOfAll(variants, x.s.known, SizeOf(x), StepOf(x));
            var items := Items(x, docs, state).value;
            && |variants| == |x.s.supported|
            && |items| == |chunks| > 0
            && (forall k | 0 <= k < |items| :: items[k].chunk == chunks[k])
            && (forall i | 0 <= i < |variants| ::
                  variants[i].id == id && variants[i].language == x.s.supported[i]
                  && variants[i].metadata.status == READY)
  {
    hide Items, Completion, ChunksOfAll, Coherent, SameID, TrimSpace, LastSupplied, BuildTranslationID, EmbedAll;
    FirstRunParts(x, docs, state, id);
    CompletionIsTotal(x.s, x.t, docs, state, id);
    EmbeddedChunks(x.embed, ChunksOfAll(VariantsOf(x, docs, state), x.s.known, SizeOf(x), StepOf(x)));
  }

  /** What most proofs need to know of a first run. */
  lemma FirstRunFacts(x: Indexer, docs: seq<Document>, state: DocumentState, id: string)
    requires FirstRun(x, docs, state, id)
    ensures Coherent(x.s) && Configured(x.s) && Distinct(x.s.supported) && x.s.supported != []
    ensures docs != [] && SameID(docs, id) && TrimSpace(id) != ""
    ensures 0 < StepOf(x) < SizeOf(x) && Items(x, docs, state).Success? && Completion(x.s, x.t, docs, state).Success?
    ensures |VariantsOf(x, docs, state)| == |x.s.supported|
    ensures forall i | 0 <= i < |x.s.supported| :: VariantsOf(x, docs, state)[i].language == x.s.supported[i]
  {
    FirstRunItems(x, docs, state, id);
    hide ChunksOfAll, SameID, TrimSpace, VariantsOf, Completion;
    FirstRunSucceeds(x, docs, state, id);
  }

  lemma FirstRunSucceeds(x: Indexer, docs: seq<Document>, state: DocumentState, id: string)
    requires FirstRun(x, docs, state, id)
    ensures Completion(x.s, x.t, docs, state).Success?
  {
    hide Completion, Coherent, SameID;
  }

  // ----- Positions of chunks -----

  /** Where the chunks of document `i` start. */
  function Base(docs: seq<Document>, known: seq<string>, size: nat, step: nat, i: nat): nat
    requires 0 < step <= size && i <= |docs|
  {
    |ChunksOfAll(docs[..i], known, size, step)|
  }

  lemma AllChunksGrow(docs: seq<Document>, known: seq<string>, size: nat, step: nat)
    requires 0 < step <= size && docs != []
    ensures var n := |docs| - 1;
            ChunksOfAll(docs, known, size, step)
            == ChunksOfAll(docs[..n], known, size, step) + ChunksOf(docs[n], known, size, step)
  {
    hide ChunksOf;
  }

  lemma {:induction false} ChunkAtBase(docs: seq<Document>, known: seq<string>, size: nat, step: nat, i: nat, part: nat)
    requires 0 < step <= size && i < |docs| && part < |ChunksOf(docs[i], known, size, step)|
    ensures var cs := ChunksOfAll(docs, known, size, step);
            var k := Base(docs, known, size, step, i) + part;
            k < |cs| && cs[k] == ChunksOf(docs[i], known, size, step)[part]
    decreases |docs|
  {
    hide ChunksOf, ChunksOfAll;
    AllChunksGrow(docs, known, size, step);
    var n := |docs| - 1;
    if i < n {
      assert docs[..n][i] == docs[i];
      ChunkAtBase(docs[..n], known, size, step, i, part);
      assert docs[..n][..i] == docs[..i];
    }
  }

  lemma {:induction false} OriginAtBase(docs: seq<Document>, known: seq<string>, size: nat, step: nat, k: nat)
    requires 0 < step <= size && k < |ChunksOfAll(docs, known, size, step)|
    ensures var o := Origin(docs, known, size, step, k);
            k == Base(docs, known, size, step, o.0) + o.1
    decreases |docs|
  {
    var n := |docs| - 1;
    if k < |ChunksOfAll(docs[..n], known, size, step)| {
      OriginAtBase(docs[..n], known, size, step, k);
      var o := Origin(docs[..n], known, size, step, k);
      assert docs[..n][..o.0] == docs[..o.0];
    }
  }

  /** `items` are the chunks of `variants`, one per language code of `langs`. */
  ghost predicate Itemised(items: seq<EmbeddedChunk>, variants: seq<Document>, langs: seq<string>, known: seq<string>,
                           size: nat, step: nat)
    requires 0 < step <= size
  {
    && Distinct(langs) && |variants| == |langs|
    && (forall i | 0 <= i < |langs| :: IsCode(langs[i]) && variants[i].language == langs[i])
    && |items| == |ChunksOfAll(variants, known, size, step)|
    && forall k | 0 <= k < |items| :: items[k].chunk == ChunksOfAll(variants, known, size, step)[k]
  }

  lemma CodesAreLangs(c: Chunk)
    requires IsCode(c.language)
    ensures Lang(c) == c.language
  {
    CodesAreTrimmed(c.language);
  }

  /** Every chunk of a variant is among the items, in the variant's language. */
  lemma ItemAtBase(items: seq<EmbeddedChunk>, variants: seq<Document>, langs: seq<string>, known: seq<string>,
                   size: nat, step: nat,
                   i: nat, part: nat)
    requires 0 < step <= size && Itemised(items, variants, langs, known, size, step)
    requires i < |langs| && part < |ChunksOf(variants[i], known, size, step)|
    ensures var k := Base(variants, known, size, step, i) + part;
            && k < |items|
            && items[k].chunk == ChunksOf(variants[i], known, size, step)[part]
            && Lang(items[k].chunk) == langs[i]
  {
    ChunkAtBase(variants, known, size, step, i, part);
    CodesAreLangs(ChunksOf(variants[i], known, size, step)[part]);
    hide ChunksOfAll, Base, Lang, ChunkID, TranslationKey;
  }

  lemma ItemOrigin(items: seq<EmbeddedChunk>, variants: seq<Document>, langs: seq<string>, known: seq<string>,
                   size: nat, step: nat,
                   i: nat, k: nat)
    requires 0 < step <= size && Itemised(items, variants, langs, known, size, step)
    requires i < |langs| && k < |items| && Lang(items[k].chunk) == langs[i]
    ensures ChunksOf(variants[i], known, size, step) != []
    ensures k < Base(variants, known, size, step, i) + |ChunksOf(variants[i], known, size, step)|
  {
    var o := Origin(variants, known, size, step, k);
    OriginAtBase(variants, known, size, step, k);
    CodesAreLangs(items[k].chunk);
    assert langs[o.0] == langs[i];
    assert o.0 == i;
    hide ChunksOfAll, Base, Lang, ChunkID, TranslationKey, Origin;
  }

  /** The last chunk written in a language is the last chunk of that language's variant, if it has any. */
  lemma LastItemInLanguage(items: seq<EmbeddedChunk>, variants: seq<Document>, langs: seq<string>, known: seq<string>,
                           size: nat, step: nat, i: nat)
    requires 0 < step <= size && Itemised(items, variants, langs, known, size, step)
    requires i < |langs|
    ensures var mine := ChunksOf(variants[i], known, size, step);
            var last := LastInLang(items, langs[i]);
            if mine == [] then last == -1 else last >= 0 && items[last].chunk == mine[|mine| - 1]
  {
    hide ChunksOfAll, Base, Lang, LastInLang, ChunksOf, Itemised;
    ItemisedLength(items, variants, langs, known, size, step);
    var mine := ChunksOf(variants[i], known, size, step);
    var last := LastInLang(items, langs[i]);
    if mine != [] {
      ItemAtBase(items, variants, langs, known, size, step, i, |mine| - 1);
      var top := Base(variants, known, size, step, i) + |mine| - 1;
      LastIsLast(items, langs[i], top);
      ItemOrigin(items, variants, langs, known, size, step, i, last);
    } else if last >= 0 {
      LastHasLang(items, langs[i]);
      ItemOrigin(items, variants, langs, known, size, step, i, last);
    }
  }

  lemma ItemisedLength(items: seq<EmbeddedChunk>, variants: seq<Document>, langs: seq<string>, known: seq<string>,
                       size: nat, step: nat)
    requires 0 < step <= size && Itemised(items, variants, langs, known, size, step)
    ensures |variants| == |langs|
  {
  }

  lemma LastIsLast(items: seq<EmbeddedChunk>, lang: string, k: nat)
    requires k < |items| && Lang(items[k].chunk) == lang
    ensures k <= LastInLang(items, lang) && Lang(items[LastInLang(items, lang)].chunk) == lang
  {
  }

  lemma LastHasLang(items: seq<EmbeddedChunk>, lang: string)
    requires LastInLang(items, lang) >= 0
    ensures Lang(items[LastInLang(items, lang)].chunk) == lang
  {
  }

  lemma FirstRunIsItemised(x: Indexer, docs: seq<Document>, state: DocumentState, id: string)
    requires FirstRun(x, docs, state, id)
    ensures 0 < StepOf(x) < SizeOf(x)
    ensures Itemised(Items(x, docs, state).value, VariantsOf(x, docs, state), x.s.supported, x.s.known, SizeOf(x),
                     StepOf(x))
    ensures AllOf(Items(x, docs, state).value, id) && Items(x, docs, state).value != []
  {
    FirstRunItems(x, docs, state, id);
    ItemsCarryID(x, docs, state, id);
    hide VariantsOf, Items, ChunksOfAll, SizeOf, StepOf, SameID;
  }

  lemma ItemsCarryID(x: Indexer, docs: seq<Document>, state: DocumentState, id: string)
    requires FirstRun(x, docs, state, id)
    ensures AllOf(Items(x, docs, state).value, id) && Items(x, docs, state).value != []
  {
    FirstRunItems(x, docs, state, id);
    hide FirstRun, VariantsOf, Items, ChunksOfAll, Origin, SizeOf, StepOf;
    var variants, items := VariantsOf(x, docs, state), Items(x, docs, state).value;
    forall k | 0 <= k < |items|
      ensures items[k].chunk.documentID == id
    {
      var o := Origin(variants, x.s.known, SizeOf(x), StepOf(x), k);
    }
  }

  // ----- What the transaction leaves for the next run -----

  lemma StateAfter(db: Database, items: seq<EmbeddedChunk>, id: string)
    requires items != [] && AllOf(items, id) && TrimSpace(id) == id
    ensures var st := StateOf(Committed(db, items), id);
            && id in Committed(db, items).documents && st.complete && st.chunkCount == |items|
            && forall l ::
                 var last := LastInLang(items, l);
                 if last >= 0 then l in st.translations && st.translations[l] == RowOf(items[last].chunk)
                 else l in st.translations <==> (id, l) in db.translations
  {
    CommittedParts(db, items, id);
    var st := StateOf(Committed(db, items), id);
    forall l
      ensures
        var last := LastInLang(items, l);
        if last >= 0 then l in st.translations && st.translations[l] == RowOf(items[last].chunk)
        else l in st.translations <==> (id, l) in db.translations
    {
      UpsertItemsTranslations(ClearChunks(db, id), items, id, l);
      TranslationsOf(Committed(db, items), id, l);
    }
    hide Committed, UpsertItems, LastInLang, RowOf;
  }

  lemma TranslationsOf(db: Database, id: string, l: string)
    ensures l in StateOf(db, id).translations <==> (id, l) in db.translations
    ensures l in StateOf(db, id).translations ==> StateOf(db, id).translations[l] == db.translations[(id, l)]
  {
  }

  // ----- Counting chunks -----

  function Counts(docs: seq<Document>, size: int, step: int): (r: seq<nat>)
    ensures |r| == |docs|
  {
    seq(|docs|, i requires 0 <= i < |docs| => CountFor(docs[i], size, step))
  }

  lemma {:induction false} SumOfCounts(docs: seq<Document>, size: int, step: int)
    ensures SumCounts(docs, size, step) == Sum(Counts(docs, size, step))
    decreases |docs|
  {
    if docs != [] {
      var n := |docs| - 1;
      SumOfCounts(docs[..n], size, step);
      assert Counts(docs, size, step)[..n] == Counts(docs[..n], size, step);
    }
  }

  lemma CountIsPositiveIff(doc: Document, size: int, step: int)
    requires 0 < step <= size
    ensures CountFor(doc, size, step) > 0 <==> Fields(doc.content) != []
  {
  }

  /** The languages the documents are filed under. */
  function Filed(s: Settings, docs: seq<Document>): (r: seq<string>)
    ensures |r| == |docs|
  {
    seq(|docs|, i requires 0 <= i < |docs| => Resolve(s, docs[i]).language)
  }

  lemma LastFiled(s: Settings, docs: seq<Document>, lang: string)
    ensures LastSupplied(s, docs, lang) == LastAt(Filed(s, docs), lang)
    ensures lang in Filed(s, docs) <==> LastSupplied(s, docs, lang) >= 0
  {
    hide Resolve;
    var i, langs := LastSupplied(s, docs, lang), Filed(s, docs);
    assert forall j | 0 <= j < |docs| :: langs[j] == Resolve(s, docs[j]).language;
    assert i >= 0 ==> langs[i] == lang;
    hide Filed;
  }

  /** The chunks that the skip check expects and the run does not store: those of documents that a later one of
      their language replaces, or that are filed under a language that is not supported. */
  function LeftOut(x: Indexer, docs: seq<Document>): nat {
    Sum(Spare(Filed(x.s, docs), Counts(docs, SizeOf(x), StepOf(x)), x.s.supported))
  }

  /** The chunks that the run stores and the skip check does not expect: those of variants in languages that no
      document is filed under. */
  function Generated(x: Indexer, docs: seq<Document>, variants: seq<Document>): nat
    requires |variants| == |x.s.supported|
  {
    Sum(Added(x.s.supported, Counts(variants, SizeOf(x), StepOf(x)), Filed(x.s, docs)))
  }

  /** A supplied language keeps the title and the text supplied last. */
  lemma SuppliedVariantKeepsText(x: Indexer, docs: seq<Document>, state: DocumentState, id: string, i: nat)
    requires FirstRun(x, docs, state, id) && i < |x.s.supported|
    requires LastSupplied(x.s, docs, x.s.supported[i]) >= 0
    ensures i < |VariantsOf(x, docs, state)|
    ensures var v, d := VariantsOf(x, docs, state)[i], docs[LastSupplied(x.s, docs, x.s.supported[i])];
            v.language == x.s.supported[i] && v.title == d.title && v.content == d.content
  {
    hide LastSupplied, FirstRun, Completion, Configured, Coherent, SameID, Items, TrimSpace, SizeOf, StepOf;
    FirstRunFacts(x, docs, state, id);
    CompletionIsTotal(x.s, x.t, docs, state, id);
  }

  lemma VariantsWeighLast(x: Indexer, docs: seq<Document>, state: DocumentState, id: string)
    requires FirstRun(x, docs, state, id)
    ensures 0 < StepOf(x) < SizeOf(x)
    ensures WeighsLast(Filed(x.s, docs), Counts(docs, SizeOf(x), StepOf(x)), x.s.supported,
                       Counts(VariantsOf(x, docs, state), SizeOf(x), StepOf(x)))
  {
    hide FirstRun, VariantsOf, Items, Completion, SizeOf, StepOf, SameID, Coherent, Configured, Filed, LastAt, Fields,
         TrimSpace, ExpectedCount, LastSupplied;
    FirstRunFacts(x, docs, state, id);
    var size, step := SizeOf(x), StepOf(x);
    var w, v := Counts(docs, size, step), Counts(VariantsOf(x, docs, state), size, step);
    forall i | 0 <= i < |x.s.supported| && x.s.supported[i] in Filed(x.s, docs)
      ensures v[i] == w[LastAt(Filed(x.s, docs), x.s.supported[i])]
    {
      LastFiled(x.s, docs, x.s.supported[i]);
      SuppliedVariantKeepsText(x, docs, state, id, i);
    }
  }

  /** What the next run expects and what this one stores differ by the chunks left out and those generated. */
  lemma ChunksBalance(x: Indexer, docs: seq<Document>, state: DocumentState, id: string)
    requires FirstRun(x, docs, state, id)
    ensures |VariantsOf(x, docs, state)| == |x.s.supported|
    ensures ExpectedForGroup(docs, x.cfg) + Generated(x, docs, VariantsOf(x, docs, state))
            == |Items(x, docs, state).value| + LeftOut(x, docs)
  {
    FirstRunItems(x, docs, state, id);
    FirstRunFacts(x, docs, state, id);
    VariantsWeighLast(x, docs, state, id);
    var variants, size, step := VariantsOf(x, docs, state), SizeOf(x), StepOf(x);
    ExpectedIsSum(x, docs);
    hide FirstRun, VariantsOf, SizeOf, StepOf, Filed, Items, ChunksOfAll, SumCounts, Counts, Sum, Spare, Added,
         WeighsLast, ExpectedForGroup;
    ExpectedIsChunkCount(variants, x.s.known, size, step);
    SumOfCounts(variants, size, step);
    SumsBalance(Filed(x.s, docs), Counts(docs, size, step), x.s.supported, Counts(variants, size, step));
  }

  lemma ExpectedIsSum(x: Indexer, docs: seq<Document>)
    requires 0 < StepOf(x)
    ensures ExpectedForGroup(docs, x.cfg) == Sum(Counts(docs, SizeOf(x), StepOf(x)))
  {
    SumOfCounts(docs, SizeOf(x), StepOf(x));
    hide Counts, Sum, SumCounts;
  }

  // ----- When the next run skips -----

  ghost predicate AllHaveText(docs: seq<Document>) {
    forall i | 0 <= i < |docs| :: Fields(docs[i].content) != []
  }

  /** The document is one of the stored variants, as far as its content hash tells. */
  ghost predicate IsKept(h: Hash, variants: seq<Document>, doc: Document) {
    exists i :: 0 <= i < |variants| && variants[i].language == TrimSpace(doc.language)
                && ContentHash(h, variants[i]) == ContentHash(h, doc)
  }

  ghost predicate TextsKept(h: Hash, variants: seq<Document>, docs: seq<Document>) {
    forall j | 0 <= j < |docs| :: IsKept(h, variants, docs[j])
  }

  /** The fingerprint of the source that wrote last is high and still that of the documents. */
  predicate SourceKept(h: Hash, variants: seq<Document>, docs: seq<Document>) {
    && variants != []
    && var source := variants[|variants| - 1].source;
       FingerprintMatches(h, docs, NO_STATE.(fingerprint := source.fingerprint, confidence := source.confidence))
  }

  /** The stored rows are those of the variants. */
  ghost predicate HasRowsOf(h: Hash, st: DocumentState, variants: seq<Document>) {
    forall i | 0 <= i < |variants| ::
      && variants[i].language in st.translations
      && st.translations[variants[i].language].status == READY
      && st.translations[variants[i].language].contentHash == ContentHash(h, variants[i]) != ""
  }

  lemma KeptTextsMatch(h: Hash, variants: seq<Document>, docs: seq<Document>, st: DocumentState)
    requires Digest(h) && HasRowsOf(h, st, variants) && TextsKept(h, variants, docs)
    ensures ContentHashesMatch(h, docs, st)
  {
    hide Digest, ContentHash, TrimSpace;
    forall j | 0 <= j < |docs|
      ensures var lang := TrimSpace(docs[j].language);
              && lang in st.translations && ContentHash(h, docs[j]) != ""
              && TrimSpace(st.translations[lang].contentHash) != ""
              && ContentHash(h, docs[j]) == st.translations[lang].contentHash
    {
      assert IsKept(h, variants, docs[j]);
      HashesAreVisible(h, docs[j]);
    }
  }

  lemma HashesAreVisible(h: Hash, doc: Document)
    requires Digest(h) && ContentHash(h, doc) != ""
    ensures TrimSpace(ContentHash(h, doc)) != ""
  {
    TrimSpaceFixedPoints(ContentHash(h, doc));
    hide TrimSpace, NormalizeWhitespace, ContentPreimage;
  }

  lemma MatchingTextsAreKept(h: Hash, variants: seq<Document>, docs: seq<Document>, st: DocumentState)
    requires HasRowsOf(h, st, variants) && ContentHashesMatch(h, docs, st)
    requires forall j | 0 <= j < |docs| && TrimSpace(docs[j].language) in st.translations ::
               exists i :: 0 <= i < |variants| && variants[i].language == TrimSpace(docs[j].language)
    ensures TextsKept(h, variants, docs)
  {
    hide ContentHash, TrimSpace;
    forall j | 0 <= j < |docs|
      ensures IsKept(h, variants, docs[j])
    {
      assert TrimSpace(docs[j].language) in st.translations;
      var i :| 0 <= i < |variants| && variants[i].language == TrimSpace(docs[j].language);
    }
  }

  lemma HasText(docs: seq<Document>, i: nat)
    requires AllHaveText(docs) && i < |docs|
    ensures Fields(docs[i].content) != []
  {
    hide Fields;
  }

  lemma VariantsAreReady(x: Indexer, docs: seq<Document>, state: DocumentState, id: string)
    requires FirstRun(x, docs, state, id)
    ensures forall i | 0 <= i < |VariantsOf(x, docs, state)| :: VariantsOf(x, docs, state)[i].metadata.status == READY
  {
    hide FirstRun, VariantsOf, Items, ChunksOfAll, TrimSpace, SizeOf, StepOf;
    FirstRunItems(x, docs, state, id);
  }

  /** What a committed run leaves about a document all of whose variants have text. */
  lemma RowsAfter(x: Indexer, docs: seq<Document>, state: DocumentState, db: Database, id: string)
    requires FirstRun(x, docs, state, id) && Digest(x.s.hash) && TrimSpace(id) == id
    requires AllHaveText(VariantsOf(x, docs, state))
    ensures HasRowsOf(x.s.hash, StateOf(Committed(db, Items(x, docs, state).value), id), VariantsOf(x, docs, state))
  {
    hide FirstRun, VariantsOf, Items, Committed, StateOf, ContentHash, SizeOf, StepOf, TrimSpace, Fields, ChunksOf,
         SameID, Coherent, Configured, Completion, Digest, AllHaveText;
    FirstRunFacts(x, docs, state, id);
    VariantsCarryHashes(x, docs, state, id);
    VariantsAreReady(x, docs, state, id);
    var variants, st := VariantsOf(x, docs, state), StateOf(Committed(db, Items(x, docs, state).value), id);
    forall i | 0 <= i < |variants|
      ensures variants[i].language in st.translations
      ensures st.translations[variants[i].language].status == READY
      ensures st.translations[variants[i].language].contentHash == ContentHash(x.s.hash, variants[i]) != ""
    {
      HasText(variants, i);
      StoredRowOf(x, docs, state, db, id, i);
      NoChunksWithoutText(variants[i], x.s.known, SizeOf(x), StepOf(x));
      HashOfText(x.s.hash, variants[i]);
    }
  }

  lemma VariantsCarryHashes(x: Indexer, docs: seq<Document>, state: DocumentState, id: string)
    requires FirstRun(x, docs, state, id)
    ensures forall i | 0 <= i < |VariantsOf(x, docs, state)| ::
              var v := VariantsOf(x, docs, state)[i];
              ContentHash(x.s.hash, v) != "" ==> v.metadata.contentHash == ContentHash(x.s.hash, v)
  {
    FirstRunFacts(x, docs, state, id);
    hide FirstRun, Completion, Configured, SameID, ContentHash;
    CompletionCarriesHashes(x.s, x.t, docs, state);
  }

  lemma HashOfText(h: Hash, doc: Document)
    requires Digest(h) && Fields(doc.content) != []
    ensures ContentHash(h, doc) != ""
  {
    TextWithFieldsIsVisible(doc.content);
    NormalizeWhitespaceKeepsFields(doc.content);
    hide Fields, ContentPreimage;
  }

  /** The document row carries the source of the chunk written last. */
  lemma SourceAfter(x: Indexer, docs: seq<Document>, state: DocumentState, db: Database, id: string)
    requires FirstRun(x, docs, state, id) && TrimSpace(id) == id && AllHaveText(VariantsOf(x, docs, state))
    ensures VariantsOf(x, docs, state) != []
    ensures var st := StateOf(Committed(db, Items(x, docs, state).value), id);
            var source := VariantsOf(x, docs, state)[|VariantsOf(x, docs, state)| - 1].source;
            st.fingerprint == source.fingerprint && st.confidence == source.confidence
  {
    hide FirstRun, VariantsOf, Items, Committed, TrimSpace, AllOf, Completion, Configured, SameID, Coherent, Itemised,
         SizeOf, StepOf, StateOf, ChunksOfAll, Fields;
    FirstRunFacts(x, docs, state, id);
    FirstRunItems(x, docs, state, id);
    FirstRunIsItemised(x, docs, state, id);
    var items, variants := Items(x, docs, state).value, VariantsOf(x, docs, state);
    CommittedSource(db, items, id);
    LastChunkSource(variants, x.s.known, SizeOf(x), StepOf(x));
    assert items[|items| - 1].chunk == ChunksOfAll(variants, x.s.known, SizeOf(x), StepOf(x))[|items| - 1];
  }

  lemma CommittedSource(db: Database, items: seq<EmbeddedChunk>, id: string)
    requires items != [] && AllOf(items, id) && TrimSpace(id) == id
    ensures var st := StateOf(Committed(db, items), id);
            var source := items[|items| - 1].chunk.source;
            st.fingerprint == source.fingerprint && st.confidence == source.confidence
  {
    CommittedParts(db, items, id);
    var n := |items| - 1;
    var c, before := items[n].chunk, UpsertItems(ClearChunks(db, id), items[..n]);
    assert UpsertItem(before, c).documents
           == before.documents[c.documentID := DocumentRow(c.source.fingerprint, c.source.confidence, false, 0)];
    hide Committed, TrimSpace, ClearChunks;
  }

  lemma LastChunkSource(docs: seq<Document>, known: seq<string>, size: nat, step: nat)
    requires 0 < step <= size && docs != [] && Fields(docs[|docs| - 1].content) != []
    ensures var cs := ChunksOfAll(docs, known, size, step);
            cs != [] && cs[|cs| - 1].source == docs[|docs| - 1].source
  {
    NoChunksWithoutText(docs[|docs| - 1], known, size, step);
    hide Fields, TranslationKey, ChunkID;
  }

  /** The database has no translation of the document in a language that is not supported. */
  ghost predicate OnlySupported(x: Indexer, db: Database, id: string) {
    forall key | key in db.translations && key.0 == id :: key.1 in x.s.supported
  }

  lemma ItemLanguage(items: seq<EmbeddedChunk>, variants: seq<Document>, langs: seq<string>, known: seq<string>,
                     size: nat, step: nat, k: nat)
    requires 0 < step <= size && Itemised(items, variants, langs, known, size, step) && k < |items|
    ensures exists i :: 0 <= i < |variants| && variants[i].language == Lang(items[k].chunk)
  {
    hide ChunksOfAll, Lang, TranslationKey, ChunkID, Origin, IsCode;
    var o := Origin(variants, known, size, step, k);
    CodesAreLangs(items[k].chunk);
    assert variants[o.0].language == Lang(items[k].chunk);
  }

  lemma RowsAreSupported(x: Indexer, docs: seq<Document>, state: DocumentState, db: Database, id: string, l: string)
    requires FirstRun(x, docs, state, id) && TrimSpace(id) == id && OnlySupported(x, db, id)
    requires l in StateOf(Committed(db, Items(x, docs, state).value), id).translations
    ensures exists i :: 0 <= i < |VariantsOf(x, docs, state)| && VariantsOf(x, docs, state)[i].language == l
  {
    hide FirstRun, VariantsOf, Items, Committed, StateOf, TrimSpace, ChunksOfAll, SizeOf, StepOf, Itemised, AllOf,
         SameID, Coherent, Configured, LastInLang, RowOf, IsCode;
    FirstRunFacts(x, docs, state, id);
    FirstRunIsItemised(x, docs, state, id);
    var items := Items(x, docs, state).value;
    StateAfter(db, items, id);
    if LastInLang(items, l) >= 0 {
      LastHasLang(items, l);
      ItemLanguage(items, VariantsOf(x, docs, state), x.s.supported, x.s.known, SizeOf(x), StepOf(x),
                   LastInLang(items, l));
    } else {
      var i :| 0 <= i < |x.s.supported| && x.s.supported[i] == l;
      assert VariantsOf(x, docs, state)[i].language == l;
    }
  }

  lemma HasVariant(x: Indexer, docs: seq<Document>, state: DocumentState, id: string, next: seq<Document>, j: nat)
    requires FirstRun(x, docs, state, id) && InSupported(x.s, next) && j < |next|
    ensures exists i :: 0 <= i < |VariantsOf(x, docs, state)|
                        && VariantsOf(x, docs, state)[i].language == TrimSpace(next[j].language)
  {
    FirstRunItems(x, docs, state, id);
    FirstRunFacts(x, docs, state, id);
    hide FirstRun, VariantsOf, Items, ChunksOfAll, SizeOf, StepOf, SameID;
    var i :| 0 <= i < |x.s.supported| && x.s.supported[i] == next[j].language;
    CodesAreTrimmed(x.s.supported[i]);
    assert VariantsOf(x, docs, state)[i].language == next[j].language;
  }

  lemma SkipMeans(h: Hash, docs: seq<Document>, st: DocumentState, s: Settings, cfg: ChunkConfig)
    requires s.supported != [] && st.complete
    ensures ShouldSkip(h, docs, st, RequiredLanguages(docs, s.supported, "llm"), cfg)
            <==> && st.chunkCount == ExpectedForGroup(docs, cfg) > 0
                 && (forall i | 0 <= i < |s.supported| :: s.supported[i] in st.translations
                      && TrimSpace(st.translations[s.supported[i]].status) == READY)
                 && (FingerprintMatches(h, docs, st) || ContentHashesMatch(h, docs, st))
  {
    hide FingerprintMatches, ContentHashesMatch, ExpectedForGroup, TrimSpace;
  }

  lemma RowsAreReady(s: Settings, h: Hash, st: DocumentState, variants: seq<Document>)
    requires HasRowsOf(h, st, variants) && |variants| == |s.supported|
    requires forall i | 0 <= i < |variants| :: variants[i].language == s.supported[i]
    ensures forall i | 0 <= i < |s.supported| ::
              s.supported[i] in st.translations && TrimSpace(st.translations[s.supported[i]].status) == READY
  {
    TrimSpaceFixedPoints(READY);
    hide TrimSpace, ContentHash;
    forall i | 0 <= i < |s.supported|
      ensures s.supported[i] in st.translations && st.translations[s.supported[i]].status == READY
    {
      assert variants[i].language == s.supported[i];
    }
  }

  lemma MarkedComplete(x: Indexer, docs: seq<Document>, state: DocumentState, db: Database, id: string)
    requires FirstRun(x, docs, state, id) && TrimSpace(id) == id
    ensures var after, items := Committed(db, Items(x, docs, state).value), Items(x, docs, state).value;
            && id in after.documents && items != []
            && StateOf(after, id).complete && StateOf(after, id).chunkCount == |items|
  {
    hide FirstRun, VariantsOf, Items, Committed, StateOf, TrimSpace, Itemised, SizeOf, StepOf, AllOf, LastInLang, RowOf;
    FirstRunFacts(x, docs, state, id);
    FirstRunIsItemised(x, docs, state, id);
    StateAfter(db, Items(x, docs, state).value, id);
  }

  /** After a committed run all of whose variants have text, the next run skips `next`, whatever has changed, exactly
      when it expects as many chunks as were stored, and either its source has the stored high fingerprint or each of
      its texts has the stored content hash. */
  lemma SkippedAfterIff(x: Indexer, docs: seq<Document>, state: DocumentState, db: Database, id: string,
                        next: seq<Document>)
    requires FirstRun(x, docs, state, id) && Digest(x.s.hash) && TrimSpace(id) == id
    requires AllHaveText(VariantsOf(x, docs, state)) && (OnlySupported(x, db, id) || InSupported(x.s, next))
    ensures var variants, items := VariantsOf(x, docs, state), Items(x, docs, state).value;
            ShouldSkip(x.s.hash, next, StateOf(Committed(db, items), id),
                       RequiredLanguages(next, x.s.supported, "llm"), x.cfg)
            <==> ExpectedForGroup(next, x.cfg) == |items|
                 && (SourceKept(x.s.hash, variants, next) || TextsKept(x.s.hash, variants, next))
  {
    hide FirstRun, VariantsOf, Items, Completion, Committed, StateOf, TrimSpace, SizeOf, StepOf, Coherent, Configured,
         SameID, AllOf, Itemised, ShouldSkip, RequiredLanguages, ExpectedForGroup, OnlySupported, InSupported,
         AllHaveText, Digest, SourceKept, TextsKept, FingerprintMatches, ContentHashesMatch;
    FirstRunFacts(x, docs, state, id);
    var variants, items := VariantsOf(x, docs, state), Items(x, docs, state).value;
    var st := StateOf(Committed(db, items), id);
    MarkedComplete(x, docs, state, db, id);
    SkipMeans(x.s.hash, next, st, x.s, x.cfg);
    RowsAfter(x, docs, state, db, id);
    RowsAreReady(x.s, x.s.hash, st, variants);
    SourceAfter(x, docs, state, db, id);
    SameFingerprint(x.s.hash, variants, next, st);
    TextsKeptIff(x, docs, state, db, id, next);
  }

  lemma SameFingerprint(h: Hash, variants: seq<Document>, docs: seq<Document>, st: DocumentState)
    requires variants != []
    requires st.fingerprint == variants[|variants| - 1].source.fingerprint
    requires st.confidence == variants[|variants| - 1].source.confidence
    ensures SourceKept(h, variants, docs) <==> FingerprintMatches(h, docs, st)
  {
    hide TrimSpace, SourceFingerprint, PickSourceFromDocs;
  }

  lemma TextsKeptIff(x: Indexer, docs: seq<Document>, state: DocumentState, db: Database, id: string,
                     next: seq<Document>)
    requires FirstRun(x, docs, state, id) && Digest(x.s.hash) && TrimSpace(id) == id
    requires AllHaveText(VariantsOf(x, docs, state)) && (OnlySupported(x, db, id) || InSupported(x.s, next))
    ensures ContentHashesMatch(x.s.hash, next, StateOf(Committed(db, Items(x, docs, state).value), id))
            <==> TextsKept(x.s.hash, VariantsOf(x, docs, state), next)
  {
    var variants, st := VariantsOf(x, docs, state), StateOf(Committed(db, Items(x, docs, state).value), id);
    hide FirstRun, VariantsOf, Items, Committed, StateOf, TrimSpace, ContentHashesMatch, TextsKept, OnlySupported,
         AllHaveText, Digest, HasRowsOf;
    RowsAfter(x, docs, state, db, id);
    if TextsKept(x.s.hash, variants, next) {
      KeptTextsMatch(x.s.hash, variants, next, st);
    }
    if ContentHashesMatch(x.s.hash, next, st) {
      forall j | 0 <= j < |next| && TrimSpace(next[j].language) in st.translations
        ensures exists i :: 0 <= i < |variants| && variants[i].language == TrimSpace(next[j].language)
      {
        if OnlySupported(x, db, id) {
          RowsAreSupported(x, docs, state, db, id, TrimSpace(next[j].language));
        } else {
          HasVariant(x, docs, state, id, next, j);
        }
      }
      MatchingTextsAreKept(x.s.hash, variants, next, st);
    }
  }

  /** The database holds no translation of the document. */
  ghost predicate IsNew(db: Database, id: string) {
    forall key | key in db.translations :: key.0 != id
  }

  /** A new document is skipped only if the run gave it a text in every language. */
  lemma SkippedNewHaveText(x: Indexer, docs: seq<Document>, state: DocumentState, db: Database, id: string,
                           next: seq<Document>)
    requires FirstRun(x, docs, state, id) && TrimSpace(id) == id && IsNew(db, id)
    requires ShouldSkip(x.s.hash, next, StateOf(Committed(db, Items(x, docs, state).value), id),
                        RequiredLanguages(next, x.s.supported, "llm"), x.cfg)
    ensures AllHaveText(VariantsOf(x, docs, state))
  {
    hide FirstRun, VariantsOf, Items, Committed, StateOf, TrimSpace, ChunksOfAll, SizeOf, StepOf, Configured, SameID,
         AllOf, Itemised, ShouldSkip, RequiredLanguages, ExpectedForGroup, Fields, ChunksOf, LastInLang, RowOf,
         FingerprintMatches, ContentHashesMatch, Coherent, Completion;
    FirstRunFacts(x, docs, state, id);
    FirstRunIsItemised(x, docs, state, id);
    var variants, items := VariantsOf(x, docs, state), Items(x, docs, state).value;
    var st := StateOf(Committed(db, items), id);
    StateAfter(db, items, id);
    SkipMeans(x.s.hash, next, st, x.s, x.cfg);
    forall i | 0 <= i < |variants|
      ensures Fields(variants[i].content) != []
    {
      LastItemInLanguage(items, variants, x.s.supported, x.s.known, SizeOf(x), StepOf(x), i);
      NoChunksWithoutText(variants[i], x.s.known, SizeOf(x), StepOf(x));
    }
  }

  /** The run that finds `db` skips the documents. */
  predicate SkippedOn(x: Indexer, docs: seq<Document>, db: Database, id: string) {
    var loaded := LoadedState(db, {id});
    id in loaded && ShouldSkip(x.s.hash, docs, loaded[id], RequiredLanguages(docs, x.s.supported, "llm"), x.cfg)
  }

  lemma NewIsSupported(x: Indexer, db: Database, id: string)
    requires IsNew(db, id)
    ensures OnlySupported(x, db, id)
  {
  }

  /** When re-indexing is idempotent, for every group of documents: the run after a committed run of a new document
      skips it if and only if its id is trimmed, every variant has text, the chunks left out are as many as those
      generated, and the group still shows the fingerprint or the content hashes stored. */
  lemma ReindexingIsIdempotentIff(x: Indexer, docs: seq<Document>, state: DocumentState, db: Database, id: string)
    requires FirstRun(x, docs, state, id) && Digest(x.s.hash) && IsNew(db, id)
    ensures |VariantsOf(x, docs, state)| == |x.s.supported|
    ensures var variants := VariantsOf(x, docs, state);
            SkippedOn(x, docs, Committed(db, Items(x, docs, state).value), id)
            <==> Trimmed(id) && AllHaveText(variants) && LeftOut(x, docs) == Generated(x, docs, variants)
                 && (SourceKept(x.s.hash, variants, docs) || TextsKept(x.s.hash, variants, docs))
  {
    hide FirstRun, VariantsOf, Items, Completion, Committed, StateOf, ShouldSkip, RequiredLanguages, TrimSpace,
         SkippedOn, LeftOut, Generated, ExpectedForGroup, SourceKept, TextsKept, AllHaveText, Digest, OnlySupported,
         InSupported, SizeOf, StepOf, Coherent, Configured, SameID, Trimmed;
    FirstRunFacts(x, docs, state, id);
    ChunksBalance(x, docs, state, id);
    TrimSpaceFixedPoints(id);
    var after := Committed(db, Items(x, docs, state).value);
    if !Trimmed(id) {
      NeverSkipped(x, docs, after, id);
    } else {
      MarkedComplete(x, docs, state, db, id);
      SkippedOnOne(x, docs, after, id);
      if AllHaveText(VariantsOf(x, docs, state)) {
        NewIsSupported(x, db, id);
        SkippedAfterIff(x, docs, state, db, id, docs);
      } else if SkippedOn(x, docs, after, id) {
        SkippedNewHaveText(x, docs, state, db, id, docs);
      }
    }
  }

  lemma SkippedOnOne(x: Indexer, docs: seq<Document>, db: Database, id: string)
    requires TrimSpace(id) == id && id != "" && id in db.documents
    ensures SkippedOn(x, docs, db, id)
       <==> ShouldSkip(x.s.hash, docs, StateOf(db, id), RequiredLanguages(docs, x.s.supported, "llm"), x.cfg)
  {
    LoadedOne(db, id);
    hide ShouldSkip, RequiredLanguages, LoadedState, StateOf;
  }

  lemma NeverSkipped(x: Indexer, docs: seq<Document>, db: Database, id: string)
    requires TrimSpace(id) != id
    ensures !SkippedOn(x, docs, db, id)
  {
    assert WantedIDs({id}) <= {TrimSpace(id)};
    hide StateOf, TrimSpace, ShouldSkip, RequiredLanguages;
  }

  lemma LoadedOne(db: Database, id: string)
    requires TrimSpace(id) == id && id != "" && id in db.documents
    ensures id in LoadedState(db, {id}) && LoadedState(db, {id})[id] == StateOf(db, id)
  {
    assert id in WantedIDs({id});
  }

  // ----- Groups in supported languages -----

  function Languages(docs: seq<Document>): (r: seq<string>)
    ensures |r| == |docs|
  {
    seq(|docs|, i requires 0 <= i < |docs| => docs[i].language)
  }

  ghost predicate InSupported(s: Settings, docs: seq<Document>) {
    forall i | 0 <= i < |docs| :: docs[i].language in s.supported
  }

  /** `lang` is supplied with a text that has at least one token. */
  ghost predicate SuppliedWithText(docs: seq<Document>, lang: string) {
    exists j :: 0 <= j < |docs| && docs[j].language == lang && Fields(docs[j].content) != []
  }

  /** Every supported language is supplied with text. */
  ghost predicate FullySupplied(x: Indexer, docs: seq<Document>) {
    forall i | 0 <= i < |x.s.supported| :: SuppliedWithText(docs, x.s.supported[i])
  }

  /** A document in a supported language is filed under that language. */
  lemma FiledAsTheyAre(s: Settings, docs: seq<Document>)
    requires Configured(s) && InSupported(s, docs)
    ensures Filed(s, docs) == Languages(docs)
  {
    hide Resolve;
    forall i | 0 <= i < |docs|
      ensures Resolve(s, docs[i]).language == docs[i].language
    {
      ResolveKeepsSupported(s, docs[i]);
    }
  }

  lemma ResolveKeepsSupported(s: Settings, doc: Document)
    requires IsCode(doc.language) && doc.language in s.supported
    ensures Resolve(s, doc).language == doc.language
  {
    CodesAreTrimmed(doc.language);
    LanguagesResolve(doc.language, DefaultLanguage(s), s.supported, doc.language);
    hide BuildTranslationID, Normalize, NormalizeOrFallback, TrimSpace;
  }

  /** Nothing is generated for a fully supplied group. */
  lemma NothingGenerated(x: Indexer, docs: seq<Document>, variants: seq<Document>)
    requires Coherent(x.s) && InSupported(x.s, docs) && FullySupplied(x, docs) && |variants| == |x.s.supported|
    ensures Generated(x, docs, variants) == 0
  {
    hide Filed, Counts, Sum, Configured, InSupported, FullySupplied, Languages;
    FiledAsTheyAre(x.s, docs);
    var added := Added(x.s.supported, Counts(variants, SizeOf(x), StepOf(x)), Filed(x.s, docs));
    forall i | 0 <= i < |x.s.supported|
      ensures x.s.supported[i] in Languages(docs)
    {
      var _ := SupplierOf(x, docs, i);
    }
    SumIsZeroIff(added);
  }

  /** Nothing is left out of a group with one document per language, nor of one of documents with text only if
      each has a language of its own. */
  lemma NothingLeftOutIff(x: Indexer, docs: seq<Document>)
    requires Coherent(x.s) && InSupported(x.s, docs) && 0 < StepOf(x) < SizeOf(x)
    ensures Distinct(Languages(docs)) ==> LeftOut(x, docs) == 0
    ensures AllHaveText(docs) && LeftOut(x, docs) == 0 ==> Distinct(Languages(docs))
  {
    hide Filed, Sum, Configured, LastAt, SizeOf, StepOf, InSupported, CountFor;
    FiledAsTheyAre(x.s, docs);
    var w := Counts(docs, SizeOf(x), StepOf(x));
    var spare := Spare(Filed(x.s, docs), w, x.s.supported);
    SumIsZeroIff(spare);
    DistinctIffLast(Languages(docs));
    forall j | 0 <= j < |docs|
      ensures spare[j] == 0 <==> LastAt(Languages(docs), docs[j].language) == j || Fields(docs[j].content) == []
    {
      assert docs[j].language in x.s.supported by { IsSupported(x.s, docs, j); }
      CountIsPositiveIff(docs[j], SizeOf(x), StepOf(x));
      hide Fields;
    }
    hide Fields, Spare, Counts, Distinct;
  }

  lemma IsSupported(s: Settings, docs: seq<Document>, j: nat)
    requires InSupported(s, docs) && j < |docs|
    ensures docs[j].language in s.supported
  {
  }

  lemma SupplierOf(x: Indexer, docs: seq<Document>, i: nat) returns (j: nat)
    requires FullySupplied(x, docs) && i < |x.s.supported|
    ensures j < |docs| && Languages(docs)[j] == x.s.supported[i] && Fields(docs[j].content) != []
    ensures x.s.supported[i] in Languages(docs)
  {
    hide Fields;
    assert SuppliedWithText(docs, x.s.supported[i]);
    j :| 0 <= j < |docs| && docs[j].language == x.s.supported[i] && Fields(docs[j].content) != [];
    assert Languages(docs)[j] == x.s.supported[i];
  }

  /** A fully supplied group has a text in every language, if each language has one document or each document text. */
  lemma SuppliedTexts(x: Indexer, docs: seq<Document>, state: DocumentState, id: string)
    requires FirstRun(x, docs, state, id) && InSupported(x.s, docs) && FullySupplied(x, docs)
    requires Distinct(Languages(docs)) || AllHaveText(docs)
    ensures AllHaveText(VariantsOf(x, docs, state))
  {
    hide FirstRun, VariantsOf, Items, Completion, SizeOf, StepOf, SameID, Coherent, Filed, Fields, TrimSpace, LastAt,
         LastSupplied, FullySupplied, Distinct;
    FirstRunFacts(x, docs, state, id);
    FiledAsTheyAre(x.s, docs);
    var variants, langs := VariantsOf(x, docs, state), Languages(docs);
    forall i | 0 <= i < |variants|
      ensures Fields(variants[i].content) != []
    {
      var j := SupplierOf(x, docs, i);
      LastFiled(x.s, docs, x.s.supported[i]);
      SuppliedVariantKeepsText(x, docs, state, id, i);
      DistinctIffLast(langs);
    }
  }

  /** With one document per language every text is kept. */
  lemma DistinctTextsAreKept(x: Indexer, docs: seq<Document>, state: DocumentState, id: string)
    requires FirstRun(x, docs, state, id) && InSupported(x.s, docs) && Distinct(Languages(docs))
    ensures TextsKept(x.s.hash, VariantsOf(x, docs, state), docs)
  {
    hide FirstRun, VariantsOf, Items, Completion, SizeOf, StepOf, SameID, Coherent, Filed, LastAt, Fields, TrimSpace,
         LastSupplied, ContentHash, Distinct;
    FirstRunFacts(x, docs, state, id);
    FiledAsTheyAre(x.s, docs);
    DistinctIffLast(Languages(docs));
    var variants := VariantsOf(x, docs, state);
    forall j | 0 <= j < |docs|
      ensures IsKept(x.s.hash, variants, docs[j])
    {
      IsSupported(x.s, docs, j);
      var i :| 0 <= i < |x.s.supported| && x.s.supported[i] == docs[j].language;
      LastFiled(x.s, docs, x.s.supported[i]);
      assert Languages(docs)[j] == x.s.supported[i];
      SuppliedVariantKeepsText(x, docs, state, id, i);
      SameHash(x.s.hash, variants[i], docs[j]);
      CodesAreTrimmed(docs[j].language);
      hide IsCode;
    }
  }

  lemma SameHash(h: Hash, a: Document, b: Document)
    requires a.language == b.language && a.title == b.title && a.content == b.content
    ensures ContentHash(h, a) == ContentHash(h, b)
  {
  }

  /** One document per supported language, each with text, is enough for the next run to skip them, whatever the
      database held before. */
  lemma SuppliedDocumentsAreSkipped(x: Indexer, docs: seq<Document>, state: DocumentState, db: Database, id: string)
    requires FirstRun(x, docs, state, id) && Digest(x.s.hash) && TrimSpace(id) == id
    requires InSupported(x.s, docs) && Distinct(Languages(docs)) && FullySupplied(x, docs)
    ensures var st := StateOf(Committed(db, Items(x, docs, state).value), id);
            ShouldSkip(x.s.hash, docs, st, RequiredLanguages(docs, x.s.supported, "llm"), x.cfg)
  {
    hide FirstRun, VariantsOf, Items, Completion, Committed, StateOf, ShouldSkip, RequiredLanguages, TrimSpace, Digest,
         ExpectedForGroup, Generated, LeftOut, SameID, InSupported, FullySupplied, SizeOf, StepOf, LastAt, Coherent,
         AllHaveText, TextsKept, SourceKept, Distinct, Languages;
    FirstRunFacts(x, docs, state, id);
    ChunksBalance(x, docs, state, id);
    NothingGenerated(x, docs, VariantsOf(x, docs, state));
    NothingLeftOutIff(x, docs);
    SuppliedTexts(x, docs, state, id);
    DistinctTextsAreKept(x, docs, state, id);
    SkippedAfterIff(x, docs, state, db, id, docs);
  }

  /** A fully supplied group of documents with text is skipped, whatever the database held before, exactly when its id
      is trimmed and no two of its documents share a language. */
  lemma SuppliedGroupIsSkippedIff(x: Indexer, docs: seq<Document>, state: DocumentState, db: Database, id: string)
    requires FirstRun(x, docs, state, id) && Digest(x.s.hash) && InSupported(x.s, docs)
    requires FullySupplied(x, docs) && AllHaveText(docs)
    ensures SkippedOn(x, docs, Committed(db, Items(x, docs, state).value), id)
            <==> Trimmed(id) && Distinct(Languages(docs))
  {
    hide FirstRun, VariantsOf, Items, Completion, Committed, StateOf, ShouldSkip, RequiredLanguages, TrimSpace, Digest,
         ExpectedForGroup, Generated, LeftOut, SameID, InSupported, FullySupplied, SizeOf, StepOf, LastAt, Coherent,
         AllHaveText, TextsKept, SourceKept, Distinct, Languages, SkippedOn, Trimmed;
    FirstRunFacts(x, docs, state, id);
    TrimSpaceFixedPoints(id);
    var after := Committed(db, Items(x, docs, state).value);
    if !Trimmed(id) {
      NeverSkipped(x, docs, after, id);
    } else {
      MarkedComplete(x, docs, state, db, id);
      SkippedOnOne(x, docs, after, id);
      if Distinct(Languages(docs)) {
        SuppliedDocumentsAreSkipped(x, docs, state, db, id);
      } else {
        ChunksBalance(x, docs, state, id);
        NothingGenerated(x, docs, VariantsOf(x, docs, state));
        NothingLeftOutIff(x, docs);
        SuppliedTexts(x, docs, state, id);
        SkippedAfterIff(x, docs, state, db, id, docs);
      }
    }
  }

  /** With one document per language, a new document is skipped exactly when its id is trimmed and every supported
      language is supplied with text. */
  lemma DistinctGroupIsSkippedIff(x: Indexer, docs: seq<Document>, state: DocumentState, db: Database, id: string)
    requires FirstRun(x, docs, state, id) && Digest(x.s.hash) && InSupported(x.s, docs)
    requires Distinct(Languages(docs)) && IsNew(db, id)
    ensures SkippedOn(x, docs, Committed(db, Items(x, docs, state).value), id)
            <==> Trimmed(id) && FullySupplied(x, docs)
  {
    hide FirstRun, VariantsOf, Items, Completion, Committed, StateOf, ShouldSkip, RequiredLanguages, TrimSpace, Digest,
         ExpectedForGroup, Generated, LeftOut, SameID, InSupported, FullySupplied, SizeOf, StepOf, LastAt, Coherent,
         AllHaveText, TextsKept, SourceKept, Distinct, Languages, SkippedOn, Trimmed, IsNew;
    FirstRunFacts(x, docs, state, id);
    TrimSpaceFixedPoints(id);
    var after := Committed(db, Items(x, docs, state).value);
    ReindexingIsIdempotentIff(x, docs, state, db, id);
    if Trimmed(id) && FullySupplied(x, docs) {
      MarkedComplete(x, docs, state, db, id);
      SkippedOnOne(x, docs, after, id);
      SuppliedDocumentsAreSkipped(x, docs, state, db, id);
    } else if SkippedOn(x, docs, after, id) {
      NothingLeftOutIff(x, docs);
      NoneGeneratedAllSupplied(x, docs, state, id);
    }
  }

  /** When nothing is generated and every variant has text, the corpus has supplied all of them. */
  lemma NoneGeneratedAllSupplied(x: Indexer, docs: seq<Document>, state: DocumentState, id: string)
    requires FirstRun(x, docs, state, id) && InSupported(x.s, docs) && AllHaveText(VariantsOf(x, docs, state))
    requires |VariantsOf(x, docs, state)| == |x.s.supported| && Generated(x, docs, VariantsOf(x, docs, state)) == 0
    ensures FullySupplied(x, docs)
  {
    hide FirstRun, VariantsOf, Items, Completion, SizeOf, StepOf, SameID, Coherent, Filed, InSupported, Fields,
         TrimSpace, LastAt, LastSupplied, CountFor, Sum, Configured;
    FirstRunFacts(x, docs, state, id);
    FiledAsTheyAre(x.s, docs);
    var variants := VariantsOf(x, docs, state);
    var v := Counts(variants, SizeOf(x), StepOf(x));
    SumIsZeroIff(Added(x.s.supported, v, Filed(x.s, docs)));
    forall i | 0 <= i < |x.s.supported|
      ensures SuppliedWithText(docs, x.s.supported[i])
    {
      assert Added(x.s.supported, v, Filed(x.s, docs))[i] == 0;
      CountIsPositiveIff(variants[i], SizeOf(x), StepOf(x));
      LastFiled(x.s, docs, x.s.supported[i]);
      SuppliedVariantKeepsText(x, docs, state, id, i);
      var j := LastAt(Languages(docs), x.s.supported[i]);
      assert docs[j].language == x.s.supported[i];
    }
  }

  /** Documents of one id in different supported languages, every one of which comes with text. */
  ghost predicate WellSupplied(x: Indexer, docs: seq<Document>, id: string) {
    && x.llm && Coherent(x.s) && docs != [] && SameID(docs, id) && TrimSpace(id) != ""
    && InSupported(x.s, docs) && Distinct(Languages(docs)) && FullySupplied(x, docs)
  }

  lemma SuppliedLanguageIsPresent(x: Indexer, docs: seq<Document>, id: string, i: nat) returns (j: nat)
    requires WellSupplied(x, docs, id) && i < |x.s.supported|
    ensures x.s.supported[i] in ByLanguage(x.s, docs)
    ensures j < |docs| && Fields(docs[j].content) != [] && LastSupplied(x.s, docs, x.s.supported[i]) == j
  {
    hide Filed, LastAt, LastSupplied, Fields, InSupported, ByLanguage, SameID;
    assert SuppliedWithText(docs, x.s.supported[i]);
    j :| 0 <= j < |docs| && docs[j].language == x.s.supported[i] && Fields(docs[j].content) != [];
    FiledAsTheyAre(x.s, docs);
    LastFiled(x.s, docs, x.s.supported[i]);
    assert Languages(docs)[j] == x.s.supported[i];
    ByLanguageHoldsLast(x.s, docs, x.s.supported[i]);
  }

  lemma SuppliedCompletes(x: Indexer, docs: seq<Document>, state: DocumentState, id: string)
    requires WellSupplied(x, docs, id)
    ensures Completion(x.s, x.t, docs, state).Success?
  {
    SourceIsAlwaysFound(x.s, docs);
    var f := VariantOf(x.s, x.t, ByLanguage(x.s, docs), Source(x.s, docs).value, state);
    forall i | 0 <= i < |x.s.supported|
      ensures f(x.s.supported[i]).Success?
    {
      var _ := SuppliedLanguageIsPresent(x, docs, id, i);
    }
    CollectIsPointwise(f, x.s.supported);
    hide ByLanguage, Source, Variant;
  }

  lemma WellSuppliedFacts(x: Indexer, docs: seq<Document>, id: string)
    requires WellSupplied(x, docs, id)
    ensures Configured(x.s) && x.s.supported != [] && docs != [] && SameID(docs, id)
  {
    hide SameID, Configured, TrimSpace, InSupported, Distinct, FullySupplied;
  }

  lemma SuppliedChunks(x: Indexer, docs: seq<Document>, state: DocumentState, id: string)
    requires WellSupplied(x, docs, id) && Completion(x.s, x.t, docs, state).Success? && Valid(WithDefaults(x.cfg))
    ensures ChunkResult(Completion(x.s, x.t, docs, state).value, x.cfg, x.s.known).Success?
  {
    hide WellSupplied, Completion, LastSupplied, Fields, ChunkResult, Configured, SameID, Valid, WithDefaults,
         TrimSpace, ByLanguage;
    WellSuppliedFacts(x, docs, id);
    var j := SuppliedLanguageIsPresent(x, docs, id, 0);
    CompletionIsTotal(x.s, x.t, docs, state, id);
    SomeChunks(Completion(x.s, x.t, docs, state).value, x.s.known, x.cfg);
  }

  lemma SomeChunks(docs: seq<Document>, known: seq<string>, cfg: ChunkConfig)
    requires docs != [] && Fields(docs[0].content) != [] && Valid(WithDefaults(cfg))
    ensures ChunkResult(docs, cfg, known).Success?
  {
    var c := WithDefaults(cfg);
    ValidStep(c);
    hide Fields, WithDefaults, Step;
    NoChunksWithoutText(docs[0], known, c.size, Step(c));
    ChunkAtBase(docs, known, c.size, Step(c), 0, 0);
  }

  lemma EmbeddingSucceeds(embed: string -> Result<seq<real>>, chunks: seq<Chunk>)
    requires forall text :: embed(text).Success?
    ensures EmbedAll(embed, chunks).Success?
  {
    forall i | 0 <= i < |chunks|
      ensures EmbedOne(embed)(chunks[i]).Success?
    {
      assert embed(chunks[i].text).Success?;
    }
    CollectIsPointwise(EmbedOne(embed), chunks);
  }

  /** A well supplied document needs no translation service: whatever that service does, and with an embedder
      that does not fail, the run gets as far as the store exactly when the chunk settings are valid. */
  lemma SuppliedDocumentsIndexIff(x: Indexer, docs: seq<Document>, state: DocumentState, id: string)
    requires WellSupplied(x, docs, id) && forall text :: x.embed(text).Success?
    ensures FirstRun(x, docs, state, id) <==> Valid(WithDefaults(x.cfg))
  {
    SuppliedItems(x, docs, state, id);
    hide Items, FullySupplied, Coherent, SameID, TrimSpace, WithDefaults, Valid;
  }

  lemma SuppliedItems(x: Indexer, docs: seq<Document>, state: DocumentState, id: string)
    requires WellSupplied(x, docs, id) && forall text :: x.embed(text).Success?
    ensures Items(x, docs, state).Success? <==> Valid(WithDefaults(x.cfg))
  {
    assert x.llm;
    hide WellSupplied, Completion, EmbedAll, WithDefaults, ChunkResult, Valid;
    SuppliedCompletes(x, docs, state, id);
    var chunks := ChunkResult(Completion(x.s, x.t, docs, state).value, x.cfg, x.s.known);
    if Valid(WithDefaults(x.cfg)) {
      SuppliedChunks(x, docs, state, id);
      EmbeddingSucceeds(x.embed, chunks.value);
    } else {
      InvalidSettingsFail(Completion(x.s, x.t, docs, state).value, x.cfg, x.s.known);
    }
  }

  lemma InvalidSettingsFail(docs: seq<Document>, cfg: ChunkConfig, known: seq<string>)
    requires !Valid(WithDefaults(cfg))
    ensures ChunkResult(docs, cfg, known).Failure?
  {
  }

  /** End to end: with valid settings, a well supplied document is stored if the transaction commits, and the run
      after that skips it, whatever the database held before. */
  lemma IndexedOnceIsSkipped(x: Indexer, docs: seq<Document>, state: DocumentState, db: Database, id: string)
    requires WellSupplied(x, docs, id) && Trimmed(id) && Valid(WithDefaults(x.cfg)) && Digest(x.s.hash)
    requires forall text :: x.embed(text).Success?
    ensures Items(x, docs, state).Success? && SkippedOn(x, docs, Committed(db, Items(x, docs, state).value), id)
  {
    SuppliedDocumentsIndexIff(x, docs, state, id);
    TrimSpaceFixedPoints(id);
    hide Items, Committed, SkippedOn, Coherent, SameID, TrimSpace, SuppliedWithText, Valid, WithDefaults;
    SuppliedDocumentsAreSkipped(x, docs, state, db, id);
    MarkedComplete(x, docs, state, db, id);
    SkippedOnOne(x, docs, Committed(db, Items(x, docs, state).value), id);
  }

  // ----- Taking over stored translations -----

  lemma LastChunkText(doc: Document, known: seq<string>, size: nat, step: nat)
    requires 0 < step < size && Fields(doc.content) != []
    ensures var cs := ChunksOf(doc, known, size, step);
            && cs != []
            && Fields(cs[|cs| - 1].text) != []
            && (cs[|cs| - 1].text == NormalizeWhitespace(doc.content) <==> |Fields(doc.content)| <= size)
  {
    var tokens, cs := Fields(doc.content), ChunksOf(doc, known, size, step);
    var n := |tokens|;
    SpanCount(n, size, step, 0);
    var spans := Spans(n, size, step, 0);
    var last := |spans| - 1;
    SpanShape(n, size, step, 0, last);
    ChunkTokens(doc, known, size, step, last);
    NormalizeWhitespaceKeepsFields(doc.content);
    if n <= size {
      assert tokens[0..n] == tokens;
    }
    hide Fields;
  }

  lemma ChunksKeepMetadata(doc: Document, known: seq<string>, size: nat, step: nat)
    requires 0 < step <= size
    ensures forall k | 0 <= k < |ChunksOf(doc, known, size, step)| ::
              var c := ChunksOf(doc, known, size, step)[k];
              && c.metadata == doc.metadata && c.title == doc.title
              && c.documentID == doc.id && c.translationID == doc.translationID
  {
    hide Fields, Spans, TranslationKey, ChunkID;
  }

  lemma StoredRowOf(x: Indexer, docs: seq<Document>, state: DocumentState, db: Database, id: string, i: nat)
    requires FirstRun(x, docs, state, id) && TrimSpace(id) == id && i < |x.s.supported|
    ensures i < |VariantsOf(x, docs, state)| && 0 < StepOf(x) < SizeOf(x)
    ensures var v := VariantsOf(x, docs, state)[i];
            var cs := ChunksOf(v, x.s.known, SizeOf(x), StepOf(x));
            var st := StateOf(Committed(db, Items(x, docs, state).value), id);
            cs != [] ==>
              && v.language in st.translations && st.translations[v.language] == RowOf(cs[|cs| - 1])
              && cs[|cs| - 1].metadata == v.metadata && cs[|cs| - 1].title == v.title
              && cs[|cs| - 1].translationID == v.translationID
  {
    hide FirstRun, Items, VariantsOf, Committed, StateOf, LastInLang, Itemised, TrimSpace, SizeOf, StepOf, RowOf,
         Fields, Spans, ChunksOf, SameID, Coherent, Configured, AllOf, ChunksOfAll;
    FirstRunFacts(x, docs, state, id);
    FirstRunIsItemised(x, docs, state, id);
    var items, variants := Items(x, docs, state).value, VariantsOf(x, docs, state);
    StateAfter(db, items, id);
    LastItemInLanguage(items, variants, x.s.supported, x.s.known, SizeOf(x), StepOf(x), i);
    ChunksKeepMetadata(variants[i], x.s.known, SizeOf(x), StepOf(x));
  }

  /** The stored content of a language is the whole normalised text exactly when the text fits in one chunk;
      otherwise it is the last chunk alone. */
  lemma StoredTranslationIsWholeIff(x: Indexer, docs: seq<Document>, state: DocumentState, db: Database, id: string,
                                    i: nat)
    requires FirstRun(x, docs, state, id) && TrimSpace(id) == id && i < |x.s.supported|
    ensures i < |VariantsOf(x, docs, state)|
    ensures var v := VariantsOf(x, docs, state)[i];
            var st := StateOf(Committed(db, Items(x, docs, state).value), id);
            Fields(v.content) != [] ==>
              && v.language in st.translations
              && (st.translations[v.language].content == NormalizeWhitespace(v.content)
                  <==> |Fields(v.content)| <= SizeOf(x))
              && TrimSpace(st.translations[v.language].content) != ""
              && st.translations[v.language].status == v.metadata.status
              && st.translations[v.language].sourceHash == v.metadata.sourceHash
  {
    hide Items, VariantsOf, Committed, StateOf, Fields, TrimSpace, SizeOf, StepOf, NormalizeWhitespace, ChunksOf,
         FirstRun;
    StoredRowOf(x, docs, state, db, id, i);
    var v := VariantsOf(x, docs, state)[i];
    if Fields(v.content) != [] {
      LastChunkText(v, x.s.known, SizeOf(x), StepOf(x));
      var cs := ChunksOf(v, x.s.known, SizeOf(x), StepOf(x));
      TextWithFieldsIsVisible(cs[|cs| - 1].text);
    }
  }

  lemma SourceHashOfMissing(x: Indexer, docs: seq<Document>, state: DocumentState, id: string, i: nat)
    requires FirstRun(x, docs, state, id) && i < |x.s.supported| && x.s.supported[i] !in ByLanguage(x.s, docs)
    ensures Source(x.s, docs).Some? && i < |VariantsOf(x, docs, state)|
    ensures var v := VariantsOf(x, docs, state)[i];
            && v.metadata.sourceHash == CurrentSourceHash(x.s, Source(x.s, docs).value)
            && v.content == NormalizeWhitespace(v.content)
  {
    SourceIsAlwaysFound(x.s, docs);
    CompletionIsTotal(x.s, x.t, docs, state, id);
    var byLang, source := ByLanguage(x.s, docs), Source(x.s, docs).value;
    CollectIsPointwise(VariantOf(x.s, x.t, byLang, source, state), x.s.supported);
    SourceLanguageIsCode(x.s, docs);
    VariantOfMissing(x.s, x.t, byLang, source, state, x.s.supported[i]);
    hide Variant, ByLanguage, Source, CurrentSourceHash, NormalizeWhitespace;
  }

  lemma {:induction false} LanguagesAreCodes(s: Settings, docs: seq<Document>)
    requires Configured(s) && s.supported != []
    ensures forall l | l in ByLanguage(s, docs) :: IsCode(ByLanguage(s, docs)[l].language)
    decreases |docs|
  {
    if docs != [] {
      LanguagesAreCodes(s, docs[..|docs| - 1]);
      FiledUnderCodes(s, docs[|docs| - 1]);
      hide Resolve;
    }
  }

  lemma FiledUnderCodes(s: Settings, doc: Document)
    requires Configured(s) && s.supported != []
    ensures IsCode(Resolve(s, doc).language)
  {
    hide BuildTranslationID, Normalize, NormalizeOrFallback;
  }

  lemma SourceLanguageIsCode(s: Settings, docs: seq<Document>)
    requires Configured(s) && s.supported != [] && docs != []
    ensures Source(s, docs).Some? && IsCode(Source(s, docs).value.language)
  {
    SourceIsAlwaysFound(s, docs);
    LanguagesAreCodes(s, docs);
    hide ByLanguage, Source, SourceFingerprint, ContentHash;
  }

  lemma VariantOfMissing(s: Settings, t: Translator, byLang: map<string, Document>, source: Document,
                         state: DocumentState, lang: string)
    requires lang !in byLang && IsCode(source.language)
    requires Variant(s, t, byLang, source, state, lang).Success?
    ensures var v := Variant(s, t, byLang, source, state, lang).value;
            v.metadata.sourceHash == CurrentSourceHash(s, source) && v.content == NormalizeWhitespace(v.content)
  {
    if Reusable(s, source, lang, state) {
      NormalizeWhitespaceKeepsFields(state.translations[Normalize(lang)].content);
    } else {
      TranslatedShape(s, t, source, lang);
      hide TranslatedVariant;
    }
    hide WithIndexMetadata, TranslationSourceHash, BuildTranslationID, NormalizeWhitespace, NormalizeNonEmpty,
         Normalize, TrimSpace;
  }

  lemma TranslatedShape(s: Settings, t: Translator, source: Document, lang: string)
    requires IsCode(source.language) && TranslatedVariant(s, t, source, lang).Success?
    ensures var v := TranslatedVariant(s, t, source, lang).value;
            v.metadata.sourceHash == CurrentSourceHash(s, source) && v.content == NormalizeWhitespace(v.content)
  {
    CodesAreTrimmed(source.language);
    var code := Normalize(lang);
    var title := t.translate(source.title, source.language, code, TitleLabel);
    var content := t.translate(source.content, source.language, code, ContentLabel);
    TranslatedContent(s, t, source, source.language, code, title.value, content.value);
    hide Translated, NormalizeWhitespace, Normalize, TranslationSourceHash;
  }

  lemma TranslatedContent(s: Settings, t: Translator, source: Document, from: string, code: string, title: string,
                          content: string)
    ensures var v := Translated(s, t, source, from, code, title, content);
            && v.content == NormalizeWhitespace(v.content)
            && v.metadata.sourceHash == TranslationSourceHash(s.hash, from, source.title, source.content)
  {
    NormalizeWhitespaceKeepsFields(content);
    hide WithIndexMetadata, NormalizeWhitespace, TranslationSourceHash, BuildTranslationID;
  }

  /** A translation made by one run is taken over by the next without calling the service, and comes back
      unchanged exactly when it fitted in one chunk. */
  lemma ReuseRoundTripsIff(x: Indexer, docs: seq<Document>, state: DocumentState, db: Database, id: string, i: nat)
    requires FirstRun(x, docs, state, id) && Digest(x.s.hash) && TrimSpace(id) == id
    requires i < |x.s.supported| && x.s.supported[i] !in ByLanguage(x.s, docs)
    requires i < |VariantsOf(x, docs, state)| && Fields(VariantsOf(x, docs, state)[i].content) != []
    ensures Source(x.s, docs).Some?
    ensures var made := VariantsOf(x, docs, state)[i];
            var st := StateOf(Committed(db, Items(x, docs, state).value), id);
            && Reusable(x.s, Source(x.s, docs).value, x.s.supported[i], st)
            && (ReusedVariant(x.s, Source(x.s, docs).value, x.s.supported[i], st).content == made.content
                <==> |Fields(made.content)| <= SizeOf(x))
  {
    SourceHashOfMissing(x, docs, state, id, i);
    StoredTranslationIsWholeIff(x, docs, state, db, id, i);
    FirstRunItems(x, docs, state, id);
    RowContentIsNormal(x, docs, state, db, id, i);
    ReuseOfRow(x.s, Source(x.s, docs).value, x.s.supported[i], StateOf(Committed(db, Items(x, docs, state).value), id));
    hide Items, VariantsOf, Committed, StateOf, Fields, TrimSpace, ByLanguage, Source, NormalizeWhitespace, Reusable,
         ReusedVariant, CurrentSourceHash;
  }

  lemma ReuseOfRow(s: Settings, source: Document, lang: string, st: DocumentState)
    requires IsCode(lang) && lang in st.translations && Digest(s.hash)
    requires var row := st.translations[lang];
             && row.status == READY && row.sourceHash == CurrentSourceHash(s, source)
             && TrimSpace(row.content) != "" && NormalizeWhitespace(row.content) == row.content
    ensures Reusable(s, source, lang, st) && ReusedVariant(s, source, lang, st).content == st.translations[lang].content
  {
    CodesAreTrimmed(lang);
    TrimSpaceFixedPoints(st.translations[lang].sourceHash);
    hide TrimSpace, NormalizeWhitespace, Normalize, BuildTranslationID, NormalizeNonEmpty;
  }

  lemma RowHoldsText(c: Chunk)
    ensures RowOf(c).content == c.text
  {
    hide NormalizeNonEmpty;
  }

  /** Stored contents are normalised already. */
  lemma RowContentIsNormal(x: Indexer, docs: seq<Document>, state: DocumentState, db: Database, id: string, i: nat)
    requires FirstRun(x, docs, state, id) && TrimSpace(id) == id && i < |x.s.supported|
    requires i < |VariantsOf(x, docs, state)| && Fields(VariantsOf(x, docs, state)[i].content) != []
    ensures var st := StateOf(Committed(db, Items(x, docs, state).value), id);
            x.s.supported[i] in st.translations
            && NormalizeWhitespace(st.translations[x.s.supported[i]].content)
            == st.translations[x.s.supported[i]].content
  {
    hide FirstRun, Items, VariantsOf, Committed, StateOf, Fields, TrimSpace, NormalizeWhitespace, SizeOf, StepOf,
         SameID, Coherent, Configured, ChunksOf, RowOf, Itemised, LastInLang;
    FirstRunFacts(x, docs, state, id);
    StoredRowOf(x, docs, state, db, id, i);
    var v := VariantsOf(x, docs, state)[i];
    NoChunksWithoutText(v, x.s.known, SizeOf(x), StepOf(x));
    var cs := ChunksOf(v, x.s.known, SizeOf(x), StepOf(x));
    ChunkTextIsNormal(v, x.s.known, SizeOf(x), StepOf(x), |cs| - 1);
    RowHoldsText(cs[|cs| - 1]);
    var row := StateOf(Committed(db, Items(x, docs, state).value), id).translations[x.s.supported[i]];
    assert row == RowOf(cs[|cs| - 1]);
  }

  lemma ChunkTextIsNormal(doc: Document, known: seq<string>, size: nat, step: nat, k: nat)
    requires 0 < step <= size && k < |ChunksOf(doc, known, size, step)|
    ensures NormalizeWhitespace(ChunksOf(doc, known, size, step)[k].text) == ChunksOf(doc, known, size, step)[k].text
  {
    ChunkTokens(doc, known, size, step, k);
    hide Fields, Spans;
  }
}
