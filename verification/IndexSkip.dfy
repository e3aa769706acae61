/** Deciding which documents a run may skip (backend/internal/rag/index_skip.go). */
module IndexSkip {
  import opened Text
  import opened Documents
  import opened Chunking
  import opened Translations

  // ----- Expected number of chunks -----

  function CountFor(doc: Document, size: int, step: int): nat {
    ExpectedCount(|Fields(doc.content)|, size, step)
  }

  function SumCounts(docs: seq<Document>, size: int, step: int): nat {
    if docs == [] then 0 else SumCounts(docs[..|docs| - 1], size, step) + CountFor(docs[|docs| - 1], size, step)
  }

  function ExpectedForGroup(docs: seq<Document>, cfg: ChunkConfig): nat {
    var c := WithDefaults(cfg);
    if Step(c) < 1 then 0 else SumCounts(docs, c.size, Step(c))
  }

  method ExpectedChunkCountForGroup(docs: seq<Document>, cfg: ChunkConfig) returns (total: int)
    ensures total == ExpectedForGroup(docs, cfg)
  {
    if docs == [] {
      return 0;
    }
    var c := WithDefaults(cfg);
    var step := Step(c);
    if step < 1 {
      return 0;
    }
    total := 0;
    for i := 0 to |docs|
      invariant total == SumCounts(docs[..i], c.size, step)
    {
      assert docs[..i + 1][..i] == docs[..i];
      var tokenCount := |Fields(docs[i].content)|;
      if tokenCount == 0 {
        continue;
      }
      var more := ExpectedChunkCountForTokens(tokenCount, c.size, step);
      total := total + more;
    }
    assert docs[..|docs|] == docs;
  }

  // ----- The skip decision -----

  function RequiredLanguages(docs: seq<Document>, supported: seq<string>, mode: string): set<string> {
    if mode == "llm" && supported != [] then set l | l in supported
    else set i | 0 <= i < |docs| && TrimSpace(docs[i].language) != "" :: TrimSpace(docs[i].language)
  }

  predicate HasReadyTranslations(state: DocumentState, langs: set<string>) {
    forall l | l in langs :: l in state.translations && TrimSpace(state.translations[l].status) == READY
  }

  predicate ContentHashesMatch(h: Hash, docs: seq<Document>, state: DocumentState) {
    forall i | 0 <= i < |docs| ::
      var lang := TrimSpace(docs[i].language);
      && lang in state.translations
      && ContentHash(h, docs[i]) != ""
      && TrimSpace(state.translations[lang].contentHash) != ""
      && ContentHash(h, docs[i]) == state.translations[lang].contentHash
  }

  /** The documents by trimmed language, and the languages in order of first appearance. */
  function TrimmedLanguages(docs: seq<Document>): (map<string, Document>, seq<string>) {
    if docs == [] then (map[], [])
    else
      var (byLang, langs) := TrimmedLanguages(docs[..|docs| - 1]);
      var doc := docs[|docs| - 1];
      var lang := TrimSpace(doc.language);
      if lang == "" then (byLang, langs)
      else (byLang[lang := doc], if lang in byLang then langs else langs + [lang])
  }

  function PickSourceFromDocs(docs: seq<Document>): Document
    requires docs != []
  {
    var (byLang, langs) := TrimmedLanguages(docs);
    var picked := PickSource(byLang, langs);
    if picked.Some? then picked.value else docs[0]
  }

  predicate FingerprintMatches(h: Hash, docs: seq<Document>, state: DocumentState) {
    && TrimSpace(state.fingerprint) != ""
    && TrimSpace(state.confidence) == HIGH
    && docs != []
    && var (fingerprint, confidence) := SourceFingerprint(h, PickSourceFromDocs(docs).source);
       confidence == HIGH && fingerprint == state.fingerprint
  }

  predicate ShouldSkip(h: Hash, docs: seq<Document>, state: DocumentState, required: set<string>, cfg: ChunkConfig) {
    && state.complete
    && ExpectedForGroup(docs, cfg) > 0
    && state.chunkCount == ExpectedForGroup(docs, cfg)
    && HasReadyTranslations(state, required)
    && (FingerprintMatches(h, docs, state) || ContentHashesMatch(h, docs, state))
  }

  // ----- Filtering a corpus -----

  /** The documents with one id, in order. */
  function Group(docs: seq<Document>, id: string): seq<Document> {
    if docs == [] then []
    else Group(docs[..|docs| - 1], id) + if docs[|docs| - 1].id == id then [docs[|docs| - 1]] else []
  }

  function IDs(docs: seq<Document>): set<string> {
    set i | 0 <= i < |docs| :: docs[i].id
  }

  datatype Report = Report(grouped: int, skipped: int, processed: int)

  /** The decision for one id of the corpus. */
  predicate Skipped(h: Hash, docs: seq<Document>, supported: seq<string>, mode: string, cfg: ChunkConfig,
                    existing: map<string, DocumentState>, id: string)
  {
    && id in existing
    && ShouldSkip(h, Group(docs, id), existing[id], RequiredLanguages(Group(docs, id), supported, mode), cfg)
  }

  lemma {:induction false} GroupOfConcat(a: seq<Document>, b: seq<Document>, id: string)
    ensures Group(a + b, id) == Group(a, id) + Group(b, id)
    decreases |b|
  {
    if b == [] {
      assert a + b == a;
    } else {
      assert (a + b)[..|a + b| - 1] == a + b[..|b| - 1];
      GroupOfConcat(a, b[..|b| - 1], id);
    }
  }

  lemma GroupOfSingle(doc: Document, id: string)
    ensures Group([doc], id) == if doc.id == id then [doc] else []
  {
    assert [doc][..0] == [];
  }

  lemma {:induction false} GroupIsEmptyIff(docs: seq<Document>, id: string)
    ensures Group(docs, id) == [] <==> id !in IDs(docs)
    decreases |docs|
  {
    if docs != [] {
      GroupIsEmptyIff(docs[..|docs| - 1], id);
      assert IDs(docs) == IDs(docs[..|docs| - 1]) + {docs[|docs| - 1].id};
    }
  }

  lemma {:induction false} GroupOfGroup(docs: seq<Document>, id: string, other: string)
    ensures Group(Group(docs, id), other) == if id == other then Group(docs, id) else []
    decreases |docs|
  {
    if docs != [] {
      var last := docs[|docs| - 1];
      var init := docs[..|docs| - 1];
      GroupOfGroup(init, id, other);
      if last.id == id {
        GroupOfConcat(Group(init, id), [last], other);
        GroupOfSingle(last, other);
        assert Group(docs, id) == Group(init, id) + [last];
      } else {
        assert Group(docs, id) == Group(init, id);
      }
    }
  }

  /** `out` holds the whole groups of exactly the ids that are not skipped. */
  ghost predicate Filtered(out: seq<Document>, h: Hash, docs: seq<Document>, supported: seq<string>, mode: string,
                           cfg: ChunkConfig,
                           existing: map<string, DocumentState>)
  {
    forall id :: Group(out, id) == if Skipped(h, docs, supported, mode, cfg, existing, id) then [] else Group(docs, id)
  }

  /** The documents come in the order of their ids. */
  ghost predicate Sorted(out: seq<Document>) {
    forall i, j | 0 <= i < j < |out| :: out[i].id == out[j].id || Less(out[i].id, out[j].id)
  }

  /** The documents come before every pending id. */
  ghost predicate Before(out: seq<Document>, pending: set<string>) {
    forall i, id | 0 <= i < |out| && id in pending :: Less(out[i].id, id)
  }

  lemma {:induction false} GroupHasID(docs: seq<Document>, id: string)
    ensures forall i | 0 <= i < |Group(docs, id)| :: Group(docs, id)[i].id == id
    decreases |docs|
  {
    if docs != [] {
      GroupHasID(docs[..|docs| - 1], id);
    }
  }

  /** Adding the group of the first pending id keeps the order, and leaving it out as well. */
  lemma SortedStep(out: seq<Document>, docs: seq<Document>, pending: set<string>, id: string)
    requires Sorted(out) && Before(out, pending) && IsFirst(id, pending)
    ensures id in pending && Before(out, pending - {id})
    ensures Sorted(out + Group(docs, id)) && Before(out + Group(docs, id), pending - {id})
  {
    GroupHasID(docs, id);
    hide Less, Group;
  }

  /** FilterDocumentsForIndex: the groups of the ids that are not skipped, in the order of the ids. */
  method FilterDocumentsForIndex(h: Hash, documents: seq<Document>, supported: seq<string>, mode: string,
                                 cfg: ChunkConfig, existing: map<string, DocumentState>)
    returns (out: seq<Document>, report: Report)
    ensures var docs := PrepareDocuments(h, documents);
            && Filtered(out, h, docs, supported, mode, cfg, existing)
            && Sorted(out)
            && report.grouped == |IDs(docs)|
            && report.skipped == |set id | id in IDs(docs) && Skipped(h, docs, supported, mode, cfg, existing, id)|
            && report.processed == report.grouped - report.skipped
  {
    var docs := PrepareDocuments(h, documents);
    var grouped := GroupByID(docs);
    ghost var drop := set id | id in IDs(docs) && Skipped(h, docs, supported, mode, cfg, existing, id);
    var skipped;
    out, skipped := KeepGroups(h, docs, grouped, supported, mode, cfg, existing, drop);
    report := Report(|grouped|, skipped, |grouped| - skipped);
    KeptGroups(h, out, docs, supported, mode, cfg, existing, drop);
    assert |grouped| == |grouped.Keys|;
    hide Skipped, Kept, IDs, Group, PrepareDocuments, Sorted;
  }

  /** The loop over the groups; `drop` names the groups that it must leave out. */
  method KeepGroups(h: Hash, docs: seq<Document>, grouped: map<string, seq<Document>>, supported: seq<string>,
                    mode: string,
                    cfg: ChunkConfig, existing: map<string, DocumentState>, ghost drop: set<string>)
    returns (out: seq<Document>, skipped: int)
    requires grouped.Keys == IDs(docs) && drop <= IDs(docs)
    requires forall id | id in grouped :: grouped[id] == Group(docs, id)
    requires forall id | id in IDs(docs) :: id in drop <==> Skipped(h, docs, supported, mode, cfg, existing, id)
    ensures Kept(out, docs, drop) && Sorted(out) && skipped == |drop|
  {
    hide Group, IDs, Skipped, Kept, Sorted, Before, IsFirst;
    out, skipped := [], 0;
    NothingIsSorted(grouped.Keys);
    var pending := grouped.Keys;
    KeptNothing(docs);
    SetStart(drop, pending);
    while pending != {}
      invariant pending <= grouped.Keys
      invariant Kept(out, docs, pending + drop)
      invariant Sorted(out) && Before(out, pending)
      invariant skipped == |drop - pending|
    {
      var id := NextID(pending);
      SortedStep(out, docs, pending, id);
      SetStep(drop, pending, id);
      ghost var excluded := pending + drop;
      pending := pending - {id};
      SkippedMeans(h, docs, supported, mode, cfg, existing, id);
      var skip := Decide(h, grouped[id], supported, mode, cfg, existing, id);
      if skip {
        skipped := skipped + 1;
      } else {
        KeepStep(out, docs, excluded, id);
        out := out + grouped[id];
      }
    }
    SetEnd(drop);
  }

  predicate IsFirst(id: string, pending: set<string>) {
    id in pending && forall other | other in pending :: other == id || Less(id, other)
  }

  /** The next id in order. */
  method NextID(pending: set<string>) returns (id: string)
    requires pending != {}
    ensures IsFirst(id, pending)
  {
    hide Less;
    ghost var first := HasFirst(pending);
    id :| id in pending && forall other | other in pending :: other == id || Less(id, other);
  }

  lemma NothingIsSorted(pending: set<string>)
    ensures Sorted([]) && Before([], pending)
  {
  }

  /** The loop's decision for one group. */
  method Decide(h: Hash, group: seq<Document>, supported: seq<string>, mode: string, cfg: ChunkConfig,
                existing: map<string, DocumentState>, id: string) returns (skip: bool)
    ensures skip <==> id in existing && ShouldSkip(h, group, existing[id], RequiredLanguages(group, supported, mode),
                                                   cfg)
  {
    if id !in existing {
      return false;
    }
    var required := RequiredLanguages(group, supported, mode);
    skip := ShouldSkip(h, group, existing[id], required, cfg);
  }

  lemma SkippedMeans(h: Hash, docs: seq<Document>, supported: seq<string>, mode: string, cfg: ChunkConfig,
                     existing: map<string, DocumentState>, id: string)
    ensures Skipped(h, docs, supported, mode, cfg, existing, id)
       <==> id in existing && ShouldSkip(h, Group(docs, id), existing[id],
                                         RequiredLanguages(Group(docs, id), supported, mode), cfg)
  {
  }

  lemma KeptGroups(h: Hash, out: seq<Document>, docs: seq<Document>, supported: seq<string>, mode: string,
                   cfg: ChunkConfig, existing: map<string, DocumentState>, drop: set<string>)
    requires Kept(out, docs, drop)
    requires drop == set id | id in IDs(docs) && Skipped(h, docs, supported, mode, cfg, existing, id)
    ensures Filtered(out, h, docs, supported, mode, cfg, existing)
  {
    GroupsOfStrangers(docs);
    hide Skipped, IDs, Group;
  }

  lemma SetStart<T>(chosen: set<T>, pending: set<T>)
    requires chosen <= pending
    ensures pending + chosen == pending && |chosen - pending| == 0
  {
    assert chosen - pending == {};
  }

  lemma SetStep<T>(chosen: set<T>, pending: set<T>, x: T)
    requires x in pending
    ensures |chosen - (pending - {x})| == |chosen - pending| + if x in chosen then 1 else 0
    ensures (pending - {x}) + chosen == if x in chosen then pending + chosen else (pending + chosen) - {x}
  {
    if x in chosen {
      assert chosen - (pending - {x}) == (chosen - pending) + {x};
    } else {
      assert chosen - (pending - {x}) == chosen - pending;
    }
  }

  lemma SetEnd<T>(chosen: set<T>)
    ensures chosen - {} == chosen && {} + chosen == chosen
  {
  }

  lemma KeptNothing(docs: seq<Document>)
    ensures Kept([], docs, IDs(docs))
  {
    GroupsOfStrangers(docs);
  }

  lemma GroupsOfStrangers(docs: seq<Document>)
    ensures forall id | id !in IDs(docs) :: Group(docs, id) == []
  {
    forall id | id !in IDs(docs) ensures Group(docs, id) == [] {
      GroupIsEmptyIff(docs, id);
    }
  }

  /** `out` holds the groups of `docs` except the excluded ones. */
  ghost predicate Kept(out: seq<Document>, docs: seq<Document>, excluded: set<string>) {
    forall id :: Group(out, id) == (if id in excluded then [] else Group(docs, id))
  }

  lemma KeepStep(out: seq<Document>, docs: seq<Document>, excluded: set<string>, id: string)
    requires id in excluded && Kept(out, docs, excluded)
    ensures Kept(out + Group(docs, id), docs, excluded - {id})
  {
    forall other
      ensures Group(out + Group(docs, id), other) == if other in excluded - {id} then [] else Group(docs, other)
    {
      GroupOfConcat(out, Group(docs, id), other);
      GroupOfGroup(docs, id, other);
    }
  }

  method GroupByID(docs: seq<Document>) returns (grouped: map<string, seq<Document>>)
    ensures grouped.Keys == IDs(docs)
    ensures forall id | id in grouped :: grouped[id] == Group(docs, id)
  {
    grouped := map[];
    for i := 0 to |docs|
      invariant grouped.Keys == IDs(docs[..i])
      invariant forall id | id in grouped :: grouped[id] == Group(docs[..i], id)
    {
      var id := docs[i].id;
      assert docs[..i + 1][..i] == docs[..i];
      assert IDs(docs[..i + 1]) == IDs(docs[..i]) + {id};
      GroupIsEmptyIff(docs[..i], id);
      grouped := grouped[id := (if id in grouped then grouped[id] else []) + [docs[i]]];
    }
    assert docs[..|docs|] == docs;
  }
}
