/** When two documents of a corpus get into each other's way in the chunk table. */
module Collisions {
  import opened Text
  import opened Documents
  import opened ChunkIds
  import opened Chunking
  import opened Translations
  import opened IndexStore
  import opened IndexRuns
  import opened Reindexing

  /** After two transactions, the first document still claims all its chunks but has only those whose ids the
      second did not take. */
  lemma SecondTakesSharedChunks(first: seq<EmbeddedChunk>, id1: string, second: seq<EmbeddedChunk>, id2: string)
    requires first != [] && second != [] && AllOf(first, id1) && AllOf(second, id2) && DistinctIDs(first)
    requires TrimSpace(id1) == id1 && TrimSpace(id2) == id2 && id1 != id2
    ensures var db := Committed(Committed(EMPTY, first), second);
            && id1 in db.documents && db.documents[id1].complete && db.documents[id1].chunkCount == |first|
            && Rows(db, id1) == ItemIDs(first) - ItemIDs(second)
            && |ItemIDs(first)| == |first|
  {
    hide Committed, UpsertItems, ItemIDs, Rows, DistinctIDs, TrimSpace;
    var db := Committed(EMPTY, first);
    CommittedParts(EMPTY, first, id1);
    RowsAfterCommit(EMPTY, first, id1, id1);
    CommittedParts(db, second, id2);
    RowsAfterCommit(db, second, id2, id1);
    UpsertItemsDocuments(ClearChunks(db, id2), second, id2);
    ItemIDCount(first);
  }

  lemma SmallerDifference<T>(a: set<T>, b: set<T>, x: T)
    requires x in a && x in b
    ensures |a - b| < |a|
  {
    assert a == (a - b) + (a * b);
    assert x in a * b;
  }

  /** The first chunk of a language's variant is stored under the id made of document, language and part 0. */
  lemma FirstChunkID(x: Indexer, docs: seq<Document>, state: DocumentState, id: string, i: nat)
    requires FirstRun(x, docs, state, id) && TrimSpace(id) == id && i < |x.s.supported|
    requires i < |VariantsOf(x, docs, state)| && Fields(VariantsOf(x, docs, state)[i].content) != []
    ensures ChunkID(ReplaceSeparators(id + ":" + x.s.supported[i]), 0) in ItemIDs(Items(x, docs, state).value)
  {
    FirstRunItems(x, docs, state, id);
    FirstRunIsItemised(x, docs, state, id);
    VariantKeys(x, docs, state, id);
    var items, variants := Items(x, docs, state).value, VariantsOf(x, docs, state);
    NoChunksWithoutText(variants[i], x.s.known, SizeOf(x), StepOf(x));
    ItemAtBase(items, variants, x.s.supported, x.s.known, SizeOf(x), StepOf(x), i, 0);
    var k := Base(variants, x.s.known, SizeOf(x), StepOf(x), i);
    assert items[k].chunk.id == ChunkID(ReplaceSeparators(id + ":" + x.s.supported[i]), 0);
    hide Items, VariantsOf, Completion, Fields, ChunkID, Base, Itemised, Coherent, TranslationKey;
  }

  lemma DistinctItems(x: Indexer, docs: seq<Document>, state: DocumentState, id: string)
    requires FirstRun(x, docs, state, id) && TrimSpace(id) == id
    ensures Proper(Items(x, docs, state).value, id, Owner({id}))
    ensures Items(x, docs, state).value != []
  {
    SingleIsCorpus(id);
    hide Items, TrimSpace, Corpus, Coherent, Proper, SameID;
    ItemsAreProperIff(x, docs, state, id, {id});
  }

  lemma SingleIsCorpus(id: string)
    requires TrimSpace(id) == id && id != ""
    ensures Corpus({id})
  {
    hide TrimSpace, ReplaceSeparators;
  }

  /** Two documents that share a language with text can be indexed side by side exactly when their ids stay
      apart once separators are flattened; otherwise the first one's completeness mark becomes false. */
  lemma SideBySideIff(x: Indexer, docs1: seq<Document>, st1: DocumentState, id1: string,
                      docs2: seq<Document>, st2: DocumentState, id2: string, i: nat)
    requires FirstRun(x, docs1, st1, id1) && FirstRun(x, docs2, st2, id2)
    requires TrimSpace(id1) == id1 && TrimSpace(id2) == id2 && id1 != id2
    requires i < |x.s.supported| && i < |VariantsOf(x, docs1, st1)| && i < |VariantsOf(x, docs2, st2)|
    requires Fields(VariantsOf(x, docs1, st1)[i].content) != [] && Fields(VariantsOf(x, docs2, st2)[i].content) != []
    ensures Truthful(Committed(Committed(EMPTY, Items(x, docs1, st1).value), Items(x, docs2, st2).value))
       <==> ReplaceSeparators(id1) != ReplaceSeparators(id2)
  {
    hide Items, VariantsOf, Committed, Fields, FirstRun, ItemIDs, Truthful, TrimSpace, Proper, ReplaceSeparators;
    if ReplaceSeparators(id1) != ReplaceSeparators(id2) {
      DocumentsApart(x, docs1, st1, id1, docs2, st2, id2);
    } else {
      DocumentsTogether(x, docs1, st1, id1, docs2, st2, id2, i);
    }
  }

  lemma PairIsCorpus(id1: string, id2: string)
    requires TrimSpace(id1) == id1 && id1 != "" && TrimSpace(id2) == id2 && id2 != ""
    requires ReplaceSeparators(id1) != ReplaceSeparators(id2)
    ensures Corpus({id1, id2})
  {
    hide TrimSpace, ReplaceSeparators;
  }

  lemma DocumentsApart(x: Indexer, docs1: seq<Document>, st1: DocumentState, id1: string,
                       docs2: seq<Document>, st2: DocumentState, id2: string)
    requires FirstRun(x, docs1, st1, id1) && FirstRun(x, docs2, st2, id2)
    requires TrimSpace(id1) == id1 && TrimSpace(id2) == id2 && ReplaceSeparators(id1) != ReplaceSeparators(id2)
    ensures Truthful(Committed(Committed(EMPTY, Items(x, docs1, st1).value), Items(x, docs2, st2).value))
  {
    var ids := {id1, id2};
    PairIsCorpus(id1, id2);
    hide Corpus;
    ItemsAreProperIff(x, docs1, st1, id1, ids);
    ItemsAreProperIff(x, docs2, st2, id2, ids);
    hide Items, Committed, Truthful, TrimSpace, Proper, Owner, ReplaceSeparators, Coherent;
    BothStayTruthful(Items(x, docs1, st1).value, id1, Items(x, docs2, st2).value, id2, Owner(ids));
  }

  lemma DocumentsTogether(x: Indexer, docs1: seq<Document>, st1: DocumentState, id1: string,
                          docs2: seq<Document>, st2: DocumentState, id2: string, i: nat)
    requires FirstRun(x, docs1, st1, id1) && FirstRun(x, docs2, st2, id2)
    requires TrimSpace(id1) == id1 && TrimSpace(id2) == id2 && id1 != id2
    requires ReplaceSeparators(id1) == ReplaceSeparators(id2)
    requires i < |x.s.supported| && i < |VariantsOf(x, docs1, st1)| && i < |VariantsOf(x, docs2, st2)|
    requires Fields(VariantsOf(x, docs1, st1)[i].content) != [] && Fields(VariantsOf(x, docs2, st2)[i].content) != []
    ensures !Truthful(Committed(Committed(EMPTY, Items(x, docs1, st1).value), Items(x, docs2, st2).value))
  {
    var lang := x.s.supported[i];
    SameFlatID(id1, id2, lang);
    hide Items, VariantsOf, Committed, Fields, ItemIDs, Truthful, ChunkID, TrimSpace, ReplaceSeparators, Owner;
    DistinctItems(x, docs1, st1, id1);
    DistinctItems(x, docs2, st2, id2);
    FirstChunkID(x, docs1, st1, id1, i);
    FirstChunkID(x, docs2, st2, id2, i);
    SharedChunkBreaksTruth(Items(x, docs1, st1).value, id1, Items(x, docs2, st2).value, id2,
                           ChunkID(ReplaceSeparators(id1 + ":" + lang), 0));
  }

  lemma BothStayTruthful(first: seq<EmbeddedChunk>, id1: string, second: seq<EmbeddedChunk>, id2: string,
                         owner: string -> string)
    requires first != [] && second != [] && Proper(first, id1, owner) && Proper(second, id2, owner)
    ensures Truthful(Committed(Committed(EMPTY, first), second))
  {
    CommittedKeepsTruth(EMPTY, first, id1, owner);
    CommittedKeepsTruth(Committed(EMPTY, first), second, id2, owner);
  }

  lemma SharedChunkBreaksTruth(first: seq<EmbeddedChunk>, id1: string, second: seq<EmbeddedChunk>, id2: string,
                               k: string)
    requires first != [] && second != [] && AllOf(first, id1) && AllOf(second, id2) && DistinctIDs(first)
    requires TrimSpace(id1) == id1 && TrimSpace(id2) == id2 && id1 != id2
    requires k in ItemIDs(first) && k in ItemIDs(second)
    ensures !Truthful(Committed(Committed(EMPTY, first), second))
  {
    SecondTakesSharedChunks(first, id1, second, id2);
    SmallerDifference(ItemIDs(first), ItemIDs(second), k);
    hide Committed, ItemIDs, Rows, TrimSpace, DistinctIDs, AllOf;
  }

  lemma SameFlatID(id1: string, id2: string, lang: string)
    requires ReplaceSeparators(id1) == ReplaceSeparators(id2) && IsCode(lang)
    ensures ReplaceSeparators(id1 + ":" + lang) == ReplaceSeparators(id2 + ":" + lang)
  {
    ReplaceSeparatorsOfID(id1, lang);
    ReplaceSeparatorsOfID(id2, lang);
  }
}
