# Civika: what the indexer, the answer cache and the fetcher guarantee

Civika is a Go backend that fetches votations, indexes them in several languages, and answers questions about
them. These modules model its stateful core and prove what its components are for:

- **Indexing** (`Text`, `Documents`, `ChunkIds`, `Chunking`, `Translations`, `IndexStore`, `IndexSkip`, `IndexRuns`,
  `Reindexing`, `GeneratedTexts`, `StoredTexts`, `Changes`, `Fingerprints`, `CorpusRuns`, `Collisions`): fill in
  missing languages ("llm" mode) or take the documents as they are ("local" mode), cut texts into overlapping windows,
  write each document in one transaction with a completeness mark, skip on the next run what is complete. The database
  is three maps: documents, translations by (document, language), chunks by id.
- **Answer cache and service** (`EntryLog`, `CacheKeys`, `KeyReadings`, `Similarity`, `QACache`, `Recall`,
  `QAService`, `Answers`): exact and nearest-vector lookup with expiry, oldest-first eviction and counters, proved
  against a plain log of `Set` calls and, over whole runs of queries, against the service without a cache.
- **Worker pool** (`WorkerPool`): one publisher, W workers and the caller's context as interleaved atomic steps.
- **Crawler and fetcher** (`Crawler`, `Fetcher`, `DiskCache`): a breadth-first crawl with depth and node caps,
  retries with back-off, pacing, and a two-file page cache that may be torn by crashes.
- **Three smaller machines** (`RateLimiter`, `UsageLedger`, `InFlight`): a rate limiter that forgets clients, an
  event table with a daily aggregate, and the guard of asynchronous translations.

`Lists` and parts of `Text` are helpers. `dafny verify dfyconfig.toml` checks everything.

## What is taken as given

- SHA-256 is any function. It is assumed injective, or to return non-empty trimmed text, only where a lemma says so
  (`Injective`, `Digest`, `CollisionFree`).
- Supported languages are normalised codes without repetition, all known to the process, as both commands set them up
  (`Coherent`, wherever an "llm" run is spoken of).
- The embedder, the summarizer, the translator, the vector search, the web site, the clock and the random jitter
  are parameters that may return anything, errors included. A database statement or a file write may fail at any
  point; the transaction is then rolled back.
- `golang.org/x/time/rate` is the standard token bucket: it refills at `qps`, holds at most `burst`, and a refused
  request takes nothing.
- Numbers are exact: `real` for floats, unbounded `int` for Go integers, except in `Fetcher.RetryDelay`, whose
  64-bit wrap-around is the point.

## Where the code does less than it seems to

Each of these is proved, with the exact condition under which the expected property holds.

- The run after an "llm" run skips a new document exactly when its id is trimmed, every variant has text, the source
  fingerprint or the content hashes still match, and the chunks the run left out are as many as those it generated
  (`ReindexingIsIdempotentIff`, for every group of documents; `ChunksBalance`). Left out are the chunks of a document
  that a later one of its language replaces, or that is filed under a language that is not supported; generated are
  those of languages without a document. The stored count lacks the former, the expected count the latter. Two cases,
  both for groups all of whose languages are supported: with one document per language the condition is that every
  supported language is supplied with text (`DistinctGroupIsSkippedIff`); with every language supplied and text in
  every document it is that no two documents share a language (`SuppliedGroupIsSkippedIff`).
- A skip can hide a changed text. Once a run has been committed all of whose variants have text, and among documents
  in supported languages without a bar that could pass for the border between title and text, no change is ever missed
  exactly when the source written last carries no date, provided the sources say anything (`ChangesAreSeenIffUndated`,
  `ChangesAreSeenIff`): a dated source is recognised by its fingerprint, and then only the number of chunks is
  compared (`SkippedUnchangedIff`). A content hash tells a text from all others in its language exactly when no bar in
  it could be that border (`HashTellsApartIff`). With sources free of bars, a document that comes with another date,
  URI, external id or system than the one written last is skipped only if all its texts are unchanged
  (`SkippedSameOriginIff`, `FingerprintsTellApartIff`).
- A translation of an earlier run is reused as long as the source's language, title and content are unchanged, and
  only then, provided their titles hold no bar (`ReusedIffSourceUnchanged`).
- Citations are deduplicated by the URL and the title joined with a bar, so every hit is cited by its URL and title
  exactly when no two different pairs look the same once joined (`EveryHitIsCitedIff`).
- The stored text of a translation is the text of its last chunk, so a reused translation is whole exactly when it
  fits in one chunk (`StoredTranslationIsWholeIff`, `ReuseRoundTripsIff`).
- The variants of a document get distinct translation ids exactly when at most one supported language is French or
  unknown to the process (`TranslationIDsAreDistinctIff`).
- Two documents whose ids agree once `:` and spaces are flattened take each other's chunk rows, and the first
  one's completeness mark becomes false (`Collisions.SideBySideIff`).
- The key of the exact cache tells a context apart from the readable contexts of its service, for every question,
  exactly when it is readable itself (`ToldApartIff`): its object id holds no text that passes for the border to the
  object, its votation id none that passes for the borders to language and votation. Other bars do no harm
  (`ExactPreimageInjective`, `BarlessContextsDiffer`, `NoBarsIsReadable`); `BarsInAFieldCollide` gives colliding
  contexts.
- In "local" mode two documents of one id can share a translation key. Their chunk ids then repeat and the count in
  the completeness mark is too high, so every mark is truthful exactly when each document's last commit was in "llm"
  mode or of documents with keys of their own (`CompletenessMarksAreTruthfulIff`). A document new to the database
  whose own metadata does not say "ready", and one of whose languages is not blank, is not skipped after a "local" run
  (`LocalRunsAreNotSkipped`).
- A nil error of the pool means whole totals exactly when the caller's context cannot be cancelled
  (`NilErrorIsCompleteIff`, `CancelledRunReportsNoError`).
- A crawl that does not fail fetches everything within reach exactly when `maxNodes` has room for it
  (`CrawlIsCompleteIff`).
- Forgetting a stale client is unobservable, and the requests granted in any window stay within
  `burst + qps * length`, exactly when `burst <= qps * 2 * cleanupInterval` (`EvictionIsUnobservableIff`,
  `WindowIsBoundedIff`).
- The fetcher spaces the stamps of its requests by the minimal interval; the requests themselves leave later, so
  `n` of them take at least `n - 2` intervals, and no more can be promised (`PacedOverall`, `PacingIsTight`).
- The retry delay is right for every maximum exactly up to attempt 33; at 34 it is negative and from 55 on it is
  zero (`RetryDelayIsExactIff`, `LateAttemptsDoNotWait`).
- A read of the page cache is an error, not a miss, exactly when the last operation on that page's meta file was
  interrupted inside it (`ReadFailsIff`, `TornMetaBlocksReads`).

## Model

| member | source | states |
|---|---|---|
| Text.FieldsOfJoin | backend/internal/rag/ingest.go:335-337 | Splitting at white space undoes joining words with single spaces |
| Text.NormalizeWhitespaceKeepsFields | backend/internal/rag/ingest.go:335-337 | Normalising keeps exactly the words, and normalised text is a fixed point |
| Documents.CodesAreTrimmed | backend/internal/langs/langs.go:9-17 | A well-formed code is trimmed and already normalised |
| Documents.CodesAreSpelledOut | backend/internal/langs/langs.go:9-9 | A code is two small letters, or two and two joined by a hyphen |
| Documents.NormalizeSpells | backend/internal/langs/langs.go:11-17 | What normalises to a code spells it letter by letter, up to case and the white space around it |
| Documents.TranslationIDsCollideIff | backend/internal/rag/ingest.go:989-995 | Two languages of a document share a translation id exactly when they map to the same known language |
| Documents.PreparingTwice | backend/internal/rag/index_skip.go:41-47 | Preparing is idempotent, and prepared documents carry the hash and the fingerprint of their own text and source |
| ChunkIds.ChunkIDInjective | backend/internal/rag/chunk.go:72-83 | Different keys or parts of one document give different chunk ids, with more than four digits too |
| ChunkIds.ChunkIDsCollideIff | backend/internal/rag/chunk.go:72-83 | Chunk ids of two documents collide exactly when the flattened ids, the languages and the parts agree |
| Chunking.ValidStep | backend/internal/rag/chunk.go:38-61 | Valid settings always give an overlap and a positive step, so the last error is never raised |
| Chunking.SettingsAreRefusedIff | backend/internal/rag/chunk.go:28-61 | Which settings are refused, and how large the overlap of the others is |
| Chunking.SpanCount | backend/internal/rag/chunk.go:73-98 | The number of windows is 1 + ceil(max(0, n-size)/step) |
| Chunking.SpanShape | backend/internal/rag/chunk.go:73-98 | Where each window starts and ends, and that each reaches past the one before |
| Chunking.SpanTokenSum | backend/internal/rag/chunk.go:73-98 | Window sizes sum to n + (k-1)(size-step) |
| Chunking.ExpectedChunkCountForTokens | backend/internal/rag/index_skip.go:148-167 | The separate counting loop returns the number of windows |
| Chunking.ChunkDocument | backend/internal/rag/chunk.go:64-98 | The inner loop yields the chunks of the specification, in order |
| Chunking.ChunkDocuments | backend/internal/rag/chunk.go:48-104 | The chunks of all documents in order, or the error the settings, an empty input or empty texts call for |
| Chunking.ChunkingRoundTrips | backend/internal/rag/chunk.go:57-99 | Dropping the overlap between neighbours re-joins the exact token sequence |
| Chunking.ChunkArithmetic | backend/internal/rag/chunk.go:28-104 | For valid settings: chunk count, token counts and the count the skip check expects |
| Translations.GroupByLanguage | backend/internal/rag/translate.go:431-447 | Supplied variants by language, the last one winning |
| Translations.ByLanguageHoldsLast | backend/internal/rag/translate.go:431-447 | A language is present exactly when supplied, with its last supplied text |
| Translations.PickSourceDocument | backend/internal/rag/translate.go:525-541 | The first present language of en, fr, de, it, rm, then the supported list, else any variant; none only without variants |
| Translations.SourceIsAlwaysFound | backend/internal/rag/translate.go:449-455 | Some supplied document always serves as source |
| Translations.VariantShape | backend/internal/rag/translate.go:456-477 | A variant is ready, filed under the language and translation id it was made for, and a supplied one keeps title and content |
| Translations.EnsureMissingTranslations | backend/internal/rag/translate.go:416-480 | The variants in list order, or the first error; what they hold is stated by CompletionIsTotal and MissingLanguagesAreGenerated |
| Translations.CompletionIsTotal | backend/internal/rag/translate.go:416-480 | One variant per supported language in order, ready, with the last supplied title and content |
| GeneratedTexts.MissingLanguagesAreGenerated | backend/internal/rag/translate.go:458-477 | A language without a document gets the translator's answers to the title and the content of the source, each asked for from the source's language, or the words of the stored row that may be reused |
| GeneratedTexts.CompletionSucceedsIff | backend/internal/rag/translate.go:416-480 | Completion succeeds exactly when each language is supplied, reusable, or answered for by the translator, title and content |
| GeneratedTexts.ReusableIff | backend/internal/rag/translate.go:482-500 | A stored translation may be reused exactly when it is ready, has text and carries the current source's hash |
| GeneratedTexts.SourceIsPreferred | backend/internal/rag/translate.go:525-541 | The source is the last document in the first language of en, fr, de, it, rm that has one |
| GeneratedTexts.ReusedIffSourceUnchanged | backend/internal/rag/translate.go:482-523 | A translation made by one run is reused by another exactly when the source has the same language, title and content |
| GeneratedTexts.ReuseKeepsTitle | backend/internal/rag/translate.go:482-523 | A reused translation keeps the title and the provider it was made with |
| GeneratedTexts.RowIsFiledUnderItsLanguage | backend/internal/rag/store.go:487-521 | A stored translation has the id made of the document and its own language |
| Translations.TranslationIDsAreDistinctIff | backend/internal/rag/translate.go:416-480 | The translation ids are distinct exactly when no two languages are filed under French |
| Translations.VariantCarriesHash | backend/internal/rag/translate.go:416-480 | Every variant records the hash of its own content |
| Translations.CompletionWithoutServiceIff | backend/internal/rag/translate.go:482-523 | With the service down, completion succeeds exactly when each language is supplied or stored for the current source hash |
| IndexStore.PostgresVectorStore.UpsertDocumentChunks | backend/internal/rag/store.go:317-604 | Commits all rows and the mark, or leaves the database as it was, whichever statement fails; what the rows hold is stated by TextIsStoredWhole |
| IndexStore.PostgresVectorStore.WriteItems | backend/internal/rag/store.go:444-588 | The statements of the loop apply the items in order |
| IndexStore.PostgresVectorStore.LoadIndexState | backend/internal/rag/store.go:606-694 | The state of exactly the known ids, with their translations and marks, or nothing when a query fails |
| IndexStore.LoadedStateMeans | backend/internal/rag/store.go:606-694 | Which documents have a state, and that it holds exactly their rows |
| IndexStore.UpsertItemsChunks | backend/internal/rag/store.go:562-587 | Which chunk rows the loop leaves and who owns them; other rows keep their contents |
| IndexStore.UpsertItemsContents | backend/internal/rag/store.go:562-587 | Each chunk row holds what the last item with its id says |
| StoredTexts.TextIsStoredWhole | backend/internal/rag/store.go:317-604 | After a commit every text can be read back word by word from the chunk rows of its document and language, in order of their parts, and each row counts its own words |
| StoredTexts.EachTextHasItsVector | backend/cmd/rag-cli/main.go:430-500 | Every chunk is stored with the vector of its own text |
| StoredTexts.ItemsSucceedIff | backend/cmd/rag-cli/main.go:367-480 | A run gets as far as the store exactly when the variants are there, the settings valid, some variant has text and every chunk can be embedded |
| IndexStore.UpsertItemsDocuments | backend/internal/rag/store.go:332-360 | The loop touches no other document row |
| IndexStore.UpsertItemsTranslations | backend/internal/rag/store.go:487-521 | A translation row holds its language's last item |
| IndexStore.UpsertItemsOthers | backend/internal/rag/store.go:487-521 | The translation rows of other documents stay as they are |
| IndexSkip.ExpectedChunkCountForGroup | backend/internal/rag/index_skip.go:128-146 | The sum of the expected counts, or none for bad settings |
| IndexSkip.FilterDocumentsForIndex | backend/internal/rag/index_skip.go:54-87 | Keeps whole groups: exactly those of unskipped ids, with nothing lost or repeated, in the order of their ids, and counts the skipped ones; what the skip decision tells apart is stated by SkippedAfterIff, SkippedSameOriginIff and ChangesAreSeenIff |
| Fingerprints.FingerprintsTellApartIff | backend/internal/rag/index_skip.go:283-311 | Sources without bars record the same fingerprint exactly when system, external id, URI and both dates agree, and a high confidence exactly with a date |
| Fingerprints.SkippedSameOriginIff | backend/internal/rag/index_skip.go:108-185 | After a committed run, documents are skipped exactly when they make as many chunks as are stored and their texts are unchanged, or their picked source is dated and of the stored origin |
| Fingerprints.PreferredIsPicked | backend/internal/rag/index_skip.go:218-242 | The source that stands for a group is the last document in the first language of en, fr, de, it, rm that it has |
| Fingerprints.OtherwiseFirstIsPicked | backend/internal/rag/index_skip.go:218-242 | Without any of these languages it is the last document in the first language that is not blank, or else the first document |
| IndexSkip.GroupByID | backend/internal/rag/index_skip.go:54-59 | Groups by id, each in corpus order |
| IndexRuns.ProcessDocumentGroup | backend/cmd/rag-cli/main.go:367-531 | Complete (in "llm" mode), chunk, embed and store one group: committed exactly as specified or unchanged, and committed whenever no stage and no statement fails |
| IndexRuns.ChunkIDsAreDistinctIff | backend/internal/rag/chunk.go:63-99 | The chunks of a group have distinct ids exactly when no two of its documents with text share a translation key |
| IndexRuns.RowsAfterCommit | backend/internal/rag/store.go:317-604 | After a commit the document has exactly its new chunk ids, and others lose only ids taken from them |
| IndexRuns.CommittedKeepsTruth | backend/internal/rag/store.go:317-604 | A commit keeps every completeness mark truthful |
| IndexRuns.ItemsAreProperIff | backend/cmd/rag-cli/main.go:367-531 | What the pipeline stores has one id and distinct chunk ids owned by it, in "local" mode exactly when no two documents with text share a key |
| IndexRuns.CompletenessMarksAreTruthfulIff | backend/internal/rag/store.go:284-604 | After any attempts in any mix of modes, crashed or not, every complete document has exactly the rows it claims, if and only if each last commit was in "llm" mode or of documents with keys of their own |
| IndexRuns.SkippedDocumentsAreFullyStoredIff | backend/internal/rag/index_skip.go:108-126 | A skipped document was committed, and has as many rows as chunking it would give exactly when its last commit stored all of its chunks; a partly written one is never skipped |
| Reindexing.ReindexingIsIdempotentIff | backend/internal/rag/index_skip.go:54-126 | For every group: the run after a committed "llm" run of a new document skips it exactly when its id is trimmed, every variant has text, as many chunks were left out as generated, and fingerprint or content hashes match |
| Reindexing.SkippedAfterIff | backend/internal/rag/index_skip.go:108-126 | The same for whatever the corpus supplies next: skipped exactly when it expects as many chunks as are stored and shows the stored high fingerprint or only stored content hashes |
| Reindexing.SuppliedGroupIsSkippedIff | backend/internal/rag/index_skip.go:54-126 | A group that supplies every language, all documents with text, is skipped exactly when its id is trimmed and no two documents share a language, on any database |
| Reindexing.DistinctGroupIsSkippedIff | backend/internal/rag/index_skip.go:54-126 | A new document with one text per language is skipped exactly when its id is trimmed and every supported language is supplied with text |
| Reindexing.IndexedOnceIsSkipped | backend/internal/rag/index_skip.go:54-126 | End to end: a document supplied with one text per supported language reaches the store, whatever the translator does and the database holds, and once committed is skipped by the next run |
| Reindexing.SuppliedDocumentsIndexIff | backend/cmd/rag-cli/main.go:367-531 | A document supplied with one text per supported language reaches the store without a translation service exactly when the chunk settings are valid |
| Reindexing.SuppliedDocumentsAreSkipped | backend/internal/rag/index_skip.go:108-126 | One document per supported language, each with text, is enough for a skip, on any database |
| Reindexing.SkippedNewHaveText | backend/internal/rag/index_skip.go:108-126 | A new document is skipped only if the committed run gave it a text in every supported language |
| Reindexing.ChunksBalance | backend/internal/rag/index_skip.go:128-167 | Expected plus generated chunks are stored plus left-out ones, so the counts agree exactly when as many were left out as generated |
| Reindexing.LastItemInLanguage | backend/internal/rag/store.go:487-521 | The last chunk written in a language is that variant's last chunk |
| Reindexing.StoredTranslationIsWholeIff | backend/internal/rag/store.go:487-521 | The stored translation is the whole text exactly when it fits in one chunk |
| Reindexing.ReuseRoundTripsIff | backend/internal/rag/translate.go:482-523 | A generated translation is always reused next time, and unchanged exactly when it fitted in one chunk |
| Changes.HashTellsApartIff | backend/internal/rag/index_skip.go:272-281 | A content hash tells a document from every other text in its language exactly when no bar in title or text could be their border |
| Changes.OtherLanguageOtherHash | backend/internal/rag/index_skip.go:272-281 | Documents in different languages never share a content hash |
| Changes.SkippedUnchangedIff | backend/internal/rag/index_skip.go:108-126 | After a committed run all of whose variants have text, documents in supported languages without such bars are skipped exactly when they make as many chunks as are stored and their source has the stored high fingerprint or every text is unchanged |
| Changes.ChangesAreSeenIff | backend/internal/rag/index_skip.go:108-126 | After such a run, every skip of documents in supported languages without such bars shows unchanged texts exactly when the source written last is not recognised by a high fingerprint |
| Changes.ChangesAreSeenIffUndated | backend/internal/rag/index_skip.go:108-126 | The same seen from the corpus, when its sources say anything: exactly when the document whose source is written last carries no date |
| CorpusRuns.CorpusIsIdempotent | backend/internal/rag/index_skip.go:54-126 | Once all groups of a corpus with one text per document and supported language are committed, in any order and on any database, filtering the same corpus skips every id and keeps no document |
| CorpusRuns.StoppedRunResumesIff | backend/internal/rag/index_skip.go:54-126 | After any of the groups of such a corpus have been committed, the next run skips exactly those and the ones it would have skipped anyway, and keeps the whole groups of all others |
| CorpusRuns.CommitLeavesOthers | backend/internal/rag/store.go:317-604 | A commit of one document leaves the state of every other as the skip check sees it |
| CorpusRuns.LocalRunsAreNotSkipped | backend/internal/rag/index_skip.go:89-126 | After a "local" run the next one processes a document new to the database again, if one of its languages is not blank, unless its own metadata says "ready" |
| Collisions.SecondTakesSharedChunks | backend/internal/rag/store.go:398-430 | A second document takes the shared chunk rows while the first keeps its count |
| Collisions.SideBySideIff | backend/internal/rag/chunk.go:72-83 | Two documents can be indexed side by side exactly when their flattened ids differ |
| CacheKeys.ExactPreimageInjective | backend/internal/services/qa_cache.go:324-348 | Equal key texts mean equal questions and contexts when no field holds its own label after a bar; other bars in fields, and any in questions, are allowed |
| CacheKeys.BarlessContextsDiffer | backend/internal/services/qa_cache.go:324-348 | No two contexts without bars in their fields share a key text, whatever the questions hold |
| KeyReadings.ToldApartIff | backend/internal/services/qa_cache.go:324-348 | A context is told apart from all readable contexts of its service, for all questions, exactly when it is readable itself |
| KeyReadings.ReadableKeysDiffer | backend/internal/services/qa_cache.go:324-348 | Readable contexts of one service share a key only for the same question and normalised context |
| KeyReadings.UnreadableKeyIsShared | backend/internal/services/qa_cache.go:324-348 | Every context that is not readable shares a key with a different, readable one of the same service |
| CacheKeys.SameFieldsIff | backend/internal/services/qa_cache.go:336-348 | The signature sees language, votation, object, canton, mode, models and topK, and nothing but white space around them and the case of language and canton escapes it |
| CacheKeys.SemanticKeysAgreeIff | backend/internal/services/qa_cache.go:328-330 | Two stored questions share a semantic key exactly when question and context hash agree |
| Recall.AskAgain | backend/internal/services/qa_cache.go:123-204 | A stored question, asked again in its context with its own vector and in time, hits with score 1 as long as it was not stored again and fewer other pairs of question and context than the bound have been stored since |
| Similarity.CosineSimilarity | backend/internal/services/qa_cache.go:387-405 | The loop computes the cosine, -1 for unequal lengths, empty or zero vectors |
| Similarity.CauchySchwarz | backend/internal/services/qa_cache.go:387-405 | The inequality behind the bound |
| Similarity.CosineIsBounded | backend/internal/services/qa_cache.go:387-405 | The cosine lies in [-1, 1] |
| Similarity.CosineOfItself | backend/internal/services/qa_cache.go:387-405 | It is 1 for a non-zero vector and itself |
| Similarity.CosineMeans | backend/internal/services/qa_cache.go:387-405 | For non-zero vectors of one length it is the dot product over the product of the norms, and -1 otherwise |
| EntryLog.RemoveExpired | backend/internal/services/qa_cache.go:282-293 | Exactly the unexpired entries stay |
| EntryLog.EvictOldest | backend/internal/services/qa_cache.go:295-314 | Down to the maximum, no kept entry older than a dropped one |
| EntryLog.SetTracks | backend/internal/services/qa_cache.go:164-204 | Set and eviction leave exactly the keys the log keeps alive |
| EntryLog.ExpiryTracks | backend/internal/services/qa_cache.go:282-293 | Expiry agrees with the log |
| EntryLog.TrackedEntriesAreBounded | backend/internal/services/qa_cache.go:295-314 | A bounded cache never holds more than its bound |
| QACache.Cache.GetExact | backend/internal/services/qa_cache.go:101-121 | Hits exactly when the key is among the most recently Set ones and its last Set is young enough, with that output |
| QACache.Cache.GetSemantic | backend/internal/services/qa_cache.go:123-162 | A hit is a live same-context entry at or above the threshold and at least as similar as any other; a miss means there is none; which stored questions are still found is stated by Recall.AskAgain |
| QACache.Cache.LookupSemantic | backend/internal/services/qa_cache.go:130-161 | The lookup itself, after expiry |
| QACache.Cache.BestMatch | backend/internal/services/qa_cache.go:137-148 | The loop finds a most similar live candidate |
| QACache.Cache.Set | backend/internal/services/qa_cache.go:164-204 | Appends to the logs what it stores, and to the semantic one only with a vector and the switch on |
| QACache.Cache.RecordMiss | backend/internal/services/qa_cache.go:206-213 | Counts one miss and changes nothing else |
| QACache.Cache.RecordBypassSensitiveQuestion | backend/internal/services/qa_cache.go:215-222 | Counts one sensitive bypass |
| QACache.Cache.RecordBypassSemanticDisabled | backend/internal/services/qa_cache.go:224-231 | Counts one disabled bypass |
| QACache.Cache.RecordBypassQuestionTooShort | backend/internal/services/qa_cache.go:233-240 | Counts one too-short bypass |
| QACache.OwnVectorAlwaysHits | backend/internal/services/qa_cache.go:123-162 | Re-asking a live question with its own vector hits for every threshold up to 1 |
| QACache.RatesAreOrdered | backend/internal/services/qa_cache.go:242-280 | 0 <= semanticHitRate <= hitRate <= 1 after rounding |
| QACache.RateIsRoundedShare | backend/internal/services/qa_cache.go:242-280 | A rate is the share of the lookups in ten-thousandths, within half of one, and 0 before any lookup |
| QAService.SanitizedIsTrimmed | backend/internal/services/qa_service.go:260-270 | A sanitised question is trimmed, whatever was redacted |
| QAService.Service.Query | backend/internal/services/qa_service.go:48-214 | What is answered and where it came from, the exact change of each counter and of the two histories, and which queries leave them alone: blank ones and those with redacted parts |
| QAService.Service.QueryCached | backend/internal/services/qa_service.go:79-214 | The same for a cacheable question, counted as exactly one of exact hit, semantic hit, miss and embedding failure |
| QAService.Service.QueryPastExact | backend/internal/services/qa_service.go:90-214 | After an exact miss: a semantic hit of the same context, or the uncached answer; the embedding failure is the only error not counted as a miss |
| QAService.Service.TryExact | backend/internal/services/qa_service.go:82-89 | An exact hit comes from a stored computation |
| QAService.Service.TrySemantic | backend/internal/services/qa_service.go:97-116 | A semantic hit comes from a stored computation of the same context |
| QAService.Service.ComputeAnswer | backend/internal/services/qa_service.go:120-209 | Without a hit the answer is the uncached one |
| Answers.UncachedAnswers | backend/internal/services/qa_service.go:120-209 | Which errors there are, and what the answer is made of: explanation, rounded mean score, sorted documents, citations of the hits |
| Answers.ConfidenceIsRoundedMean | backend/internal/services/qa_service.go:304-320 | The confidence is in [0, 1], in hundredths, and within half a hundredth of the mean score, or 0 or 1 when that lies outside |
| Answers.UsedDocumentsAreUsed | backend/internal/services/qa_service.go:179-199 | The used documents are in strictly increasing order and exactly the ids of the hits that have one |
| Answers.EveryHitIsCitedIff | backend/internal/services/qa_service.go:290-302 | Every hit is cited by URL and title exactly when no two different pairs look the same joined by a bar |
| QAService.ContextsAgreeIff | backend/internal/services/qa_service.go:58-69 | Two queries meet in the cache exactly when the services have the same mode, models and number of hits, and language, votation, object and canton agree |
| QAService.Service.Store | backend/internal/services/qa_service.go:210-212 | Stores the computed answer under its keys |
| QAService.DedupeCitations | backend/internal/services/qa_service.go:290-302 | Each citation key once, first occurrences in order |
| QAService.CitationsAreListedOnce | backend/internal/services/qa_service.go:290-302 | Nothing listed twice, nothing dropped altogether |
| QAService.ExactAnswersAreRecentAnswers | backend/internal/services/qa_service.go:79-89 | In a history of readable contexts, an exact answer was computed for the same question and context at most the time-to-live ago |
| QAService.CacheIsTransparent | backend/internal/services/qa_service.go:48-214 | Over a whole run with a fixed backend and no semantic lookup, the answers with a cache are those without one, errors included |
| QAService.SemanticAnswersShareTheContext | backend/internal/services/qa_service.go:97-116 | In a history of readable contexts, a semantic answer was computed in the same normalised context within its time limit |
| QAService.QueryAll | backend/internal/services/qa_service.go:48-214 | A whole run of a fresh service: each answer is the backend's, or a recent one to the same question and context, or a semantic one of the same context; every question that meets the cache is counted once |
| QAService.QueryNext | backend/internal/services/qa_service.go:48-214 | One query of such a run, which keeps what the histories say about the calls so far |
| QAService.AccountedKeepsBalance | backend/internal/services/qa_service.go:79-119 | Lookups stay the sum of exact hits, semantic hits, misses and embedding failures |
| WorkerPool.StepConserves | backend/cmd/rag-cli/main.go:264-350 | No step loses a group or hands it out twice |
| WorkerPool.RunsKeepInvariants | backend/cmd/rag-cli/main.go:264-350 | Every interleaving keeps every published group in one place and cancellation explained |
| WorkerPool.SendNeverBlocks | backend/cmd/rag-cli/main.go:264-350 | The result buffer always has room |
| WorkerPool.NoDeadlock | backend/cmd/rag-cli/main.go:264-350 | Every reachable state is the end or can move |
| WorkerPool.EveryRunEnds | backend/cmd/rag-cli/main.go:264-350 | A bound on the steps of any interleaving |
| WorkerPool.TotalIsSum | backend/cmd/rag-cli/main.go:342-349 | A total is the sum over the results |
| WorkerPool.TotalIsOrderFree | backend/cmd/rag-cli/main.go:342-349 | Totals do not depend on the order of results |
| WorkerPool.NoErrorMeansEverythingOnce | backend/cmd/rag-cli/main.go:264-350 | The error is one a group raised; without one, and the context alive, every group was processed once and the totals are whole |
| WorkerPool.CancelledRunReportsNoError | backend/cmd/rag-cli/main.go:264-350 | For every number of groups and workers, a run cancelled from outside that ends with no error and no results |
| WorkerPool.NilErrorIsCompleteIff | backend/cmd/rag-cli/main.go:264-350 | A nil error means whole results, in every run that ends, exactly when the caller's context cannot be cancelled |
| Crawler.Crawl | backend/cmd/data-fetch/main.go:896-941 | Pages within reach, each fetched once at its shortest distance, nearest first, within the cap; a failure has a page to blame |
| Crawler.CrawlIsCompleteIff | backend/cmd/data-fetch/main.go:896-941 | A crawl that does not fail fetches everything within reach exactly when the cap has room for it |
| Crawler.AppendChildren | backend/cmd/data-fetch/main.go:931-937 | Appends exactly the allowed links, in order, one step deeper |
| Crawler.NearerIsFetched | backend/cmd/data-fetch/main.go:896-941 | Everything nearer than the head of the queue has been fetched |
| Crawler.HeadIsAtDistance | backend/cmd/data-fetch/main.go:896-941 | The next page to fetch is at its shortest distance |
| Crawler.SkipStep | backend/cmd/data-fetch/main.go:904-914 | Skipping a page loses nothing within reach |
| Crawler.FetchStep | backend/cmd/data-fetch/main.go:921-937 | Fetching a page and queueing its links loses nothing and keeps the order |
| Crawler.CappedCrawl | backend/cmd/data-fetch/main.go:915-919 | What is fetched when the cap stops the crawl |
| Crawler.FinishedCrawl | backend/cmd/data-fetch/main.go:903-940 | An empty queue means everything within reach is fetched, whatever the cap |
| DiskCache.Cache.WriteCache | backend/cmd/data-fetch/main.go:591-617 | The files after a write that may be interrupted anywhere, and whether it reports success |
| DiskCache.HitIsTheLatestWrite | backend/cmd/data-fetch/main.go:555-645 | After any writes, crashes and deletions a hit is exactly the latest completed write for that page, within the time limit |
| DiskCache.WriteThenReadRoundTrips | backend/cmd/data-fetch/main.go:555-633 | A completed write is read back until it expires, whatever happens to other pages, under every URL of the same canonical form |
| DiskCache.ReadFailsIff | backend/cmd/data-fetch/main.go:555-617 | After any run, a read fails exactly when the last operation that reached the page's meta file was torn there |
| DiskCache.InterruptedWriteHides | backend/cmd/data-fetch/main.go:610-616 | A crash between the two files hides the page unless the body is the old one |
| Fetcher.RetryDelayIsExactIff | backend/cmd/data-fetch/main.go:695-708 | Without Retry-After the delay is min(2^attempt s, maximum) for every maximum exactly up to attempt 33 |
| Fetcher.RetryAfterIsHonoured | backend/cmd/data-fetch/main.go:695-708 | With Retry-After the delay is that time, up to the maximum |
| Fetcher.LateAttemptsDoNotWait | backend/cmd/data-fetch/main.go:695-708 | The overflow: negative at 34, zero from 55 on |
| Fetcher.ShiftIsAWrappedPower | backend/cmd/data-fetch/main.go:702-703 | The 64-bit shift is a power of two wrapped once |
| Fetcher.DecisiveIs | backend/cmd/data-fetch/main.go:531-552 | The deciding attempt is the first that is not retryable, or the last allowed |
| Fetcher.BackoffIsBounded | backend/cmd/data-fetch/main.go:547-550 | n back-offs take at most n times the maximum |
| Fetcher.PacedOverall | backend/cmd/data-fetch/main.go:675-693 | n attempts are stamped at least n-1 intervals apart and leave at least n-2 intervals apart |
| Fetcher.Client.WaitForNextRequest | backend/cmd/data-fetch/main.go:675-693 | The next attempt is stamped an interval after the last stamp, or the context was cancelled |
| Fetcher.Client.Sleep | backend/cmd/data-fetch/main.go:739-751 | Sleeps at least that long unless cancelled before |
| Fetcher.Client.FetchURL | backend/cmd/data-fetch/main.go:514-553 | A cache hit costs no attempt; otherwise the decisive answer gives the result and the cache entry, within the attempt and back-off bounds, read and stamped while the call runs, and every run stays paced |
| Fetcher.Client.FetchWithRetries | backend/cmd/data-fetch/main.go:531-552 | The retry loop: at most maxRetries+1 attempts and maxRetries maximal back-offs, the entry stamped after them |
| Fetcher.Client.Attempt | backend/cmd/data-fetch/main.go:533-536 | One paced attempt gets the next answer, unless the context is cancelled while waiting |
| RateLimiter.Limiter.constructor | backend/internal/http/middleware.go:110-122 | The default interval, and no client known |
| RateLimiter.Limiter.Allow | backend/internal/http/middleware.go:124-147 | One request: sweep when due, then take a token from the client's own bucket |
| RateLimiter.Limiter.Sweep | backend/internal/http/middleware.go:130-134 | The loop drops exactly the stale clients |
| RateLimiter.TakeSpendsOne | backend/internal/http/middleware.go:146-146 | A grant takes one token, a refusal none, and it is granted exactly when one is there |
| RateLimiter.StepAgrees | backend/internal/http/middleware.go:124-147 | One request decides as a limiter that never forgets |
| RateLimiter.EvictionIsUnobservableIff | backend/internal/http/middleware.go:124-147 | No run can tell that clients are forgotten, exactly when a bucket refills within two intervals |
| RateLimiter.WindowIsBounded | backend/internal/http/middleware.go:124-147 | In any window of length w a client gets at most burst + qps*w requests |
| RateLimiter.WindowIsBoundedIff | backend/internal/http/middleware.go:124-147 | Every window of every run stays within that bound exactly when a bucket refills within two cleanup intervals |
| UsageLedger.CleanCounts | backend/internal/rag/usage_metrics.go:295-317 | No stored number is negative, clean counts stay, and a missing total is the sum of both token counts |
| UsageLedger.SanitizeIsIdempotent | backend/internal/rag/usage_metrics.go:260-318 | A stored event sanitises to itself |
| UsageLedger.TidyEventsAreStoredAsTheyAre | backend/internal/rag/usage_metrics.go:260-318 | An event that is tidy is stored as it is, its status included |
| UsageLedger.OtherEventsAreTidied | backend/internal/rag/usage_metrics.go:260-318 | Which events are refused, and what every missing or negative field is stored as |
| UsageLedger.DayHoldsTime | backend/internal/rag/usage_metrics.go:490-490 | An event counts in the daily row of the day its time falls in |
| UsageLedger.StoringKeepsConsistent | backend/internal/rag/usage_metrics.go:412-515 | Event row and upsert keep the daily table the group-by of the event table |
| UsageLedger.RowsBalance | backend/internal/rag/usage_metrics.go:483-490 | Events are successes plus errors in every daily row |
| UsageLedger.RowsAreColumnSums | backend/internal/rag/usage_metrics.go:430-453 | Every number of a daily row is the sum of its own column |
| UsageLedger.UsageStore.RecordUsageEvent | backend/internal/rag/usage_metrics.go:412-515 | One event and its aggregate, or nothing at all; blank names, taken ids and failing statements are refused |
| InFlight.KeyIsInjective | backend/internal/services/sql_query_service.go:703-703 | The joined key tells (document, language) pairs apart because codes hold no bar |
| InFlight.EnqueueIsRefusedIff | backend/internal/services/sql_query_service.go:694-713 | A call starts nothing exactly when the id is blank or that pair is being translated |
| InFlight.StepKeepsGuarded | backend/internal/services/sql_query_service.go:694-786 | Every step of every caller and job keeps the guard |
| InFlight.EveryInterleavingIsGuarded | backend/internal/services/sql_query_service.go:694-786 | The set is the keys of unfinished jobs, one job per pair, and every pending row has a job translating it unless a write to it was lost |
| InFlight.RowsShowLastOutcome | backend/internal/services/sql_query_service.go:715-786 | After any interleaving a row says what the last write to it said: pending, ready after a translation that worked, failed after one that did not |
| InFlight.LostIff | backend/internal/services/sql_query_service.go:715-786 | A row counts as lost exactly when its last result was not written, or it was pending at the start and nothing has been written since |
| InFlight.Queue.EnqueueTranslationJobs | backend/internal/services/sql_query_service.go:694-713 | Every listed document ends up in translation, and nothing else is touched |

## Left out

- Several document ids in one call of EnsureMissingTranslations or UpsertChunks; the indexer passes one group at a time.
- Metadata keys that decide nothing, key sanitising, intervenants, summaries, source paths and the vectors' contents.
- SQL text, indexes and constraint errors; any statement may fail, which covers them.
- Timestamps of translations, usage events of the services, logging and heartbeats.
- Floating-point rounding; the square root is a parameter with its defining property.
- Case mapping beyond the characters whose lower case is an ASCII letter, and lengths in bytes instead of characters.
- The regular expressions of sanitizeQuestion; redaction is any function.
- Embedding in batches; the model embeds text by text.
- Sorting in evictOldestLocked; the model removes a minimum as many times.
- Copies of outputs and vectors handed out by the cache; they are values here.
- QAService.QueryAll: calls come one after another, each with a readable context; requests that overlap are not modelled, though the histories and the accounting of a single query hold from any state.
- QACache.Cache.Set: times of Set calls strictly increase and time-to-lives are positive, as a monotonic clock and the configuration check give; equal times would leave the eviction order open.
- WorkerPool.RunsKeepInvariants: starts at least one worker; the early returns for no groups are not steps.
- RateLimiter.WindowIsBounded: needs requests in time order.
- Fetcher.Client.FetchURL: the answer to each attempt is given by a function of the URL and the attempt number; reading the response body and its size limit are part of that answer.
- DiskCache.Cache.ReadCache: read errors other than a missing file are not modelled.
- Crawler.Crawl: a page's answer is one value, which is no restriction since no page is fetched twice; extracting links from a body is a parameter.
- UsageLedger.UsageStore.RecordUsageEvent: a commit that reports an error counts as rolled back; run, request and document columns are left out.
- InFlight.EveryInterleavingIsGuarded: says nothing about a translation ever becoming ready, since translateDocumentAsync ignores write errors and has a timeout.
- HTTP handlers, listing queries, file ingestion and the frontend.
