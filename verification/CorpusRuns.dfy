/** Whole corpora: what the second run over the same corpus finds to do (runIndex in backend/cmd/rag-cli/main.go). */
module CorpusRuns {
  import opened Text
  import opened Documents
  import opened Lists
  import opened Chunking
  import opened Translations
  import opened IndexStore
  import opened IndexSkip
  import opened IndexRuns
  import opened Reindexing

  // ----- A commit leaves other documents alone -----

  lemma CommitLeavesOthers(db: Database, items: seq<EmbeddedChunk>, id: string, d: string)
    requires items != [] && AllOf(items, id) && TrimSpace(id) == id && d != id
    ensures d in Committed(db, items).documents <==> d in db.documents
    ensures StateOf(Committed(db, items), d) == StateOf(db, d)
  {
    var clear, after := ClearChunks(db, id), Committed(db, items);
    CommittedParts(db, items, id);
    UpsertItemsDocuments(clear, items, id);
    forall key: (string, string) | key.0 == d
      ensures key in after.translations <==> key in db.translations
      ensures key in after.translations ==> after.translations[key] == db.translations[key]
    {
      UpsertItemsOthers(clear, items, id, key);
    }
    hide Committed, UpsertItems, TrimSpace, AllOf;
    SameTranslations(after, db, d);
  }

  lemma SameTranslations(a: Database, b: Database, d: string)
    requires d in a.documents <==> d in b.documents
    requires d in a.documents ==> a.documents[d] == b.documents[d]
    requires forall key: (string, string) | key.0 == d :: key in a.translations <==> key in b.translations
    requires forall key: (string, string) | key.0 == d && key in a.translations ::
               a.translations[key] == b.translations[key]
    ensures StateOf(a, d) == StateOf(b, d)
  {
    var s, t := StateOf(a, d).translations, StateOf(b, d).translations;
    forall l
      ensures l in s <==> l in t
      ensures l in s ==> s[l] == t[l]
    {
      TranslationsOf(a, d, l);
      TranslationsOf(b, d, l);
    }
    assert s == t;
  }

  // ----- The first run -----

  /** The groups of `order` committed one after the other, in whatever order the workers finish. */
  function CommitAll(x: Indexer, docs: seq<Document>, states: string -> DocumentState, db: Database,
                     order: seq<string>): Database {
    if order == [] then db
    else
      var id := order[|order| - 1];
      var before := CommitAll(x, docs, states, db, order[..|order| - 1]);
      var items := Items(x, Group(docs, id), states(id));
      if items.Success? then Committed(before, items.value) else before
  }

  /** A corpus each of whose documents is supplied with text in every supported language. */
  ghost predicate WellSuppliedCorpus(x: Indexer, docs: seq<Document>) {
    forall id | id in IDs(docs) :: Trimmed(id) && WellSupplied(x, Group(docs, id), id)
  }

  ghost predicate Ready(x: Indexer) {
    Valid(WithDefaults(x.cfg)) && Digest(x.s.hash) && forall text :: x.embed(text).Success?
  }

  lemma GroupIsStored(x: Indexer, docs: seq<Document>, states: string -> DocumentState, id: string)
    requires WellSuppliedCorpus(x, docs) && Ready(x) && id in IDs(docs)
    ensures TrimSpace(id) == id && FirstRun(x, Group(docs, id), states(id), id)
    ensures Items(x, Group(docs, id), states(id)).Success? && Items(x, Group(docs, id), states(id)).value != []
    ensures AllOf(Items(x, Group(docs, id), states(id)).value, id)
  {
    TrimSpaceFixedPoints(id);
    hide WellSupplied, IDs, Group, Items, TrimSpace, WithDefaults, Valid;
    SuppliedDocumentsIndexIff(x, Group(docs, id), states(id), id);
    FirstRunIsItemised(x, Group(docs, id), states(id), id);
  }

  /** Once committed, a document's stored state is that of its own commit. */
  lemma {:induction false} CommittedIsSkippable(x: Indexer, docs: seq<Document>, states: string -> DocumentState,
                                                db: Database,
                                                order: seq<string>, d: string)
    requires WellSuppliedCorpus(x, docs) && Ready(x) && Distinct(order) && d in order
    requires forall i | 0 <= i < |order| :: order[i] in IDs(docs)
    ensures var after := CommitAll(x, docs, states, db, order);
            && d in after.documents
            && ShouldSkip(x.s.hash, Group(docs, d), StateOf(after, d),
                          RequiredLanguages(Group(docs, d), x.s.supported, "llm"), x.cfg)
    decreases |order|
  {
    hide WellSuppliedCorpus, IDs, Group, Items, Committed, StateOf, ShouldSkip, RequiredLanguages, FirstRun, SkippedOn,
         TrimSpace;
    var n := |order| - 1;
    var before, last := CommitAll(x, docs, states, db, order[..n]), order[n];
    GroupIsStored(x, docs, states, last);
    var items := Items(x, Group(docs, last), states(last)).value;
    if last == d {
      OwnCommitIsSkipped(x, docs, states, before, d);
    } else {
      assert d in order[..n];
      CommittedIsSkippable(x, docs, states, db, order[..n], d);
      CommitLeavesOthers(before, items, last, d);
    }
  }

  lemma OwnCommitIsSkipped(x: Indexer, docs: seq<Document>, states: string -> DocumentState, db: Database, d: string)
    requires WellSuppliedCorpus(x, docs) && Ready(x) && d in IDs(docs)
    ensures Items(x, Group(docs, d), states(d)).Success?
    ensures var after := Committed(db, Items(x, Group(docs, d), states(d)).value);
            && d in after.documents
            && ShouldSkip(x.s.hash, Group(docs, d), StateOf(after, d),
                          RequiredLanguages(Group(docs, d), x.s.supported, "llm"), x.cfg)
  {
    GroupIsStored(x, docs, states, d);
    assert WellSupplied(x, Group(docs, d), d);
    hide IDs, Group, Items, Committed, StateOf, ShouldSkip, RequiredLanguages, FirstRun, TrimSpace, WithDefaults, Valid;
    MarkedComplete(x, Group(docs, d), states(d), db, d);
    assert FullySupplied(x, Group(docs, d)) && d != "" by { hide FullySupplied; }
    hide WellSupplied, FullySupplied;
    SuppliedDocumentsAreSkipped(x, Group(docs, d), states(d), db, d);
  }

  // ----- The second run -----

  lemma {:induction false} NoGroupsNoDocuments(out: seq<Document>)
    requires forall id :: Group(out, id) == []
    ensures out == []
  {
    if out != [] {
      GroupIsEmptyIff(out, out[0].id);
    }
  }

  /** A document is skipped by its own rows alone. */
  lemma SkippedByRowsIff(x: Indexer, docs: seq<Document>, db: Database, id: string)
    requires id in IDs(docs) && TrimSpace(id) == id && id != ""
    ensures Skipped(x.s.hash, docs, x.s.supported, "llm", x.cfg, LoadedState(db, IDs(docs)), id)
            <==> id in db.documents
                 && ShouldSkip(x.s.hash, Group(docs, id), StateOf(db, id),
                               RequiredLanguages(Group(docs, id), x.s.supported, "llm"), x.cfg)
  {
    hide TrimSpace, Group, RequiredLanguages, ShouldSkip, IDs, StateOf;
    var loaded := LoadedState(db, IDs(docs));
    if id in db.documents {
      IsLoaded(db, IDs(docs), id);
    } else if id in loaded {
      NotComplete(db, id);
      SkipsComplete(x.s.hash, Group(docs, id), loaded[id],
                    RequiredLanguages(Group(docs, id), x.s.supported, "llm"), x.cfg);
    }
  }

  lemma NotComplete(db: Database, id: string)
    requires id !in db.documents
    ensures !StateOf(db, id).complete
  {
  }

  lemma SkipsComplete(h: Hash, docs: seq<Document>, state: DocumentState, required: set<string>, cfg: ChunkConfig)
    requires !state.complete
    ensures !ShouldSkip(h, docs, state, required, cfg)
  {
  }

  /** What is not committed stays as it was. */
  lemma {:induction false} UncommittedStays(x: Indexer, docs: seq<Document>, states: string -> DocumentState,
                                            db: Database, order: seq<string>, d: string)
    requires WellSuppliedCorpus(x, docs) && Ready(x) && d !in order
    requires forall i | 0 <= i < |order| :: order[i] in IDs(docs)
    ensures var after := CommitAll(x, docs, states, db, order);
            (d in after.documents <==> d in db.documents) && StateOf(after, d) == StateOf(db, d)
    decreases |order|
  {
    hide WellSuppliedCorpus, Ready, IDs, Group, Items, Committed, StateOf, FirstRun, TrimSpace, AllOf;
    if order != [] {
      var n := |order| - 1;
      var before := CommitAll(x, docs, states, db, order[..n]);
      UncommittedStays(x, docs, states, db, order[..n], d);
      GroupIsStored(x, docs, states, order[n]);
      CommitLeavesOthers(before, Items(x, Group(docs, order[n]), states(order[n])).value, order[n], d);
    }
  }

  /** A run that stops after any of the groups of a well supplied corpus resumes where it stopped: whatever the
      database held before, the next run skips exactly the documents that were committed or would have been skipped
      anyway, and keeps the whole groups of all others. */
  lemma StoppedRunResumesIff(x: Indexer, documents: seq<Document>, states: string -> DocumentState, db: Database,
                             order: seq<string>)
    requires var docs := PrepareDocuments(x.s.hash, documents);
             && WellSuppliedCorpus(x, docs) && Ready(x) && Distinct(order)
             && forall i | 0 <= i < |order| :: order[i] in IDs(docs)
    ensures var docs := PrepareDocuments(x.s.hash, documents);
            var before := LoadedState(db, IDs(docs));
            var after := LoadedState(CommitAll(x, docs, states, db, order), IDs(docs));
            && (forall id | id in IDs(docs) ::
                  Skipped(x.s.hash, docs, x.s.supported, "llm", x.cfg, after, id)
                  <==> id in order || Skipped(x.s.hash, docs, x.s.supported, "llm", x.cfg, before, id))
            && (forall out, id | Filtered(out, x.s.hash, docs, x.s.supported, "llm", x.cfg, after) && id in IDs(docs) ::
                  Group(out, id)
                  == if id in order || Skipped(x.s.hash, docs, x.s.supported, "llm", x.cfg, before, id) then []
                     else Group(docs, id))
  {
    var docs := PrepareDocuments(x.s.hash, documents);
    var after := CommitAll(x, docs, states, db, order);
    var loaded, was := LoadedState(after, IDs(docs)), LoadedState(db, IDs(docs));
    hide PrepareDocuments, CommitAll, Group, StateOf, ShouldSkip, RequiredLanguages, Ready, IDs, WellSuppliedCorpus,
         Skipped, LoadedState, TrimSpace, Distinct;
    forall id | id in IDs(docs)
      ensures Skipped(x.s.hash, docs, x.s.supported, "llm", x.cfg, loaded, id)
              <==> id in order || Skipped(x.s.hash, docs, x.s.supported, "llm", x.cfg, was, id)
    {
      CorpusIDs(x, docs, id);
      SkippedByRowsIff(x, docs, after, id);
      SkippedByRowsIff(x, docs, db, id);
      if id in order {
        CommittedIsSkippable(x, docs, states, db, order, id);
      } else {
        UncommittedStays(x, docs, states, db, order, id);
      }
    }
  }

  lemma CorpusIDs(x: Indexer, docs: seq<Document>, id: string)
    requires WellSuppliedCorpus(x, docs) && id in IDs(docs)
    ensures TrimSpace(id) == id && id != ""
  {
    hide IDs, Group, TrimSpace, InSupported, FullySupplied, Languages, SameID, Coherent;
    TrimSpaceFixedPoints(id);
    assert WellSupplied(x, Group(docs, id), id);
  }

  /** Idempotence of a whole corpus: once all groups of a well supplied corpus have been committed, in any order and
      whatever the database held before, filtering the same documents against the loaded state skips every id and
      keeps no document. */
  lemma CorpusIsIdempotent(x: Indexer, documents: seq<Document>, states: string -> DocumentState, db: Database,
                           order: seq<string>)
    requires var docs := PrepareDocuments(x.s.hash, documents);
             && WellSuppliedCorpus(x, docs) && Ready(x) && Distinct(order)
             && forall id :: id in order <==> id in IDs(docs)
    ensures var docs := PrepareDocuments(x.s.hash, documents);
            var loaded := LoadedState(CommitAll(x, docs, states, db, order), IDs(docs));
            && (forall id | id in IDs(docs) :: Skipped(x.s.hash, docs, x.s.supported, "llm", x.cfg, loaded, id))
            && (forall out | Filtered(out, x.s.hash, docs, x.s.supported, "llm", x.cfg, loaded) :: out == [])
  {
    var docs := PrepareDocuments(x.s.hash, documents);
    var loaded := LoadedState(CommitAll(x, docs, states, db, order), IDs(docs));
    hide PrepareDocuments, CommitAll, Group, Ready, IDs, WellSuppliedCorpus, Skipped, LoadedState, Distinct;
    StoppedRunResumesIff(x, documents, states, db, order);
    GroupsOfStrangers(docs);
    forall out | Filtered(out, x.s.hash, docs, x.s.supported, "llm", x.cfg, loaded)
      ensures out == []
    {
      NoGroupsNoDocuments(out);
    }
  }

  lemma IsLoaded(db: Database, ids: set<string>, id: string)
    requires id in ids && TrimSpace(id) == id && id in db.documents && id != ""
    ensures id in LoadedState(db, ids) && LoadedState(db, ids)[id] == StateOf(db, id)
  {
    assert id in WantedIDs(ids);
    hide StateOf, TrimSpace;
  }

  // ----- Local runs -----

  lemma LocalChunk(x: Indexer, docs: seq<Document>, state: DocumentState, k: nat) returns (i: nat)
    requires !x.llm && Items(x, docs, state).Success? && k < |Items(x, docs, state).value|
    ensures i < |docs| && Items(x, docs, state).value[k].chunk.documentID == docs[i].id
    ensures Items(x, docs, state).value[k].chunk.metadata == docs[i].metadata
  {
    var c := WithDefaults(x.cfg);
    ValidStep(c);
    EmbeddedChunks(x.embed, ChunksOfAll(docs, x.s.known, c.size, Step(c)));
    var o := Origin(docs, x.s.known, c.size, Step(c), k);
    i := o.0;
    hide Origin, ChunksOfAll, Step, TranslationKey;
  }

  lemma LocalRowsAreNotReady(x: Indexer, docs: seq<Document>, state: DocumentState, db: Database, id: string,
                             l: string)
    requires !x.llm && SameID(docs, id) && TrimSpace(id) == id && Items(x, docs, state).Success?
    requires forall i | 0 <= i < |docs| :: TrimSpace(docs[i].metadata.status) != READY
    requires (id, l) !in db.translations
    ensures var st := StateOf(Committed(db, Items(x, docs, state).value), id);
            l in st.translations ==> TrimSpace(st.translations[l].status) != READY
  {
    var items := Items(x, docs, state).value;
    ItemsAreSome(x, docs, state);
    forall k | 0 <= k < |items|
      ensures items[k].chunk.documentID == id && TrimSpace(items[k].chunk.metadata.status) != READY
    {
      var i := LocalChunk(x, docs, state, k);
    }
    StateAfter(db, items, id);
    hide Items, StateOf, Committed, TrimSpace, LastInLang, SameID;
    var last := LastInLang(items, l);
    if last >= 0 {
      assert TrimSpace(items[last].chunk.metadata.status) != READY;
    }
  }

  /** The "local" mode never marks a translation as ready, so the run after it processes a document new to the
      database again, as long as one of its languages is known. */
  lemma LocalRunsAreNotSkipped(x: Indexer, docs: seq<Document>, state: DocumentState, db: Database, id: string,
                               supported: seq<string>)
    requires !x.llm && SameID(docs, id) && TrimSpace(id) == id && Items(x, docs, state).Success?
    requires forall i | 0 <= i < |docs| :: TrimSpace(docs[i].metadata.status) != READY
    requires exists i :: 0 <= i < |docs| && TrimSpace(docs[i].language) != ""
    requires forall key | key in db.translations :: key.0 != id
    ensures !ShouldSkip(x.s.hash, docs, StateOf(Committed(db, Items(x, docs, state).value), id),
                        RequiredLanguages(docs, supported, "local"), x.cfg)
  {
    hide Items, StateOf, Committed, TrimSpace, ExpectedForGroup, FingerprintMatches, ContentHashesMatch;
    var i :| 0 <= i < |docs| && TrimSpace(docs[i].language) != "";
    var l := TrimSpace(docs[i].language);
    assert l in RequiredLanguages(docs, supported, "local");
    LocalRowsAreNotReady(x, docs, state, db, id, l);
    hide RequiredLanguages;
  }

  lemma ItemsAreSome(x: Indexer, docs: seq<Document>, state: DocumentState)
    requires !x.llm && Items(x, docs, state).Success?
    ensures Items(x, docs, state).value != []
  {
    var c := WithDefaults(x.cfg);
    ValidStep(c);
    EmbeddedChunks(x.embed, ChunksOfAll(docs, x.s.known, c.size, Step(c)));
    hide ChunksOfAll, Step;
  }
}
