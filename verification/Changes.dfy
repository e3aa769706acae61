/** Which changes of a document's texts the next run can miss (shouldSkipDocumentGroup in
    backend/internal/rag/index_skip.go). */
module Changes {
  import opened Text
  import opened Documents
  import opened Lists
  import opened Chunking
  import opened Translations
  import opened IndexStore
  import opened IndexSkip
  import opened IndexRuns
  import opened Reindexing

  // ----- What a content hash tells apart -----

  /** What the content hash is taken of, after the language. */
  function Joined(d: Document): string {
    TrimSpace(d.title) + "|" + NormalizeWhitespace(d.content)
  }

  ghost predicate SameText(a: Document, b: Document) {
    TrimSpace(a.title) == TrimSpace(b.title) && NormalizeWhitespace(a.content) == NormalizeWhitespace(b.content)
  }

  /** The bar at `p` could be the border between a title and a text. */
  predicate IsBorder(s: string, p: nat)
    requires p < |s|
  {
    s[p] == '|' && Trimmed(s[..p]) && NormalizeWhitespace(s[p + 1..]) == s[p + 1..]
  }

  /** No bar in the title or the text could be their border. */
  ghost predicate Unambiguous(d: Document) {
    forall p | 0 <= p < |Joined(d)| && IsBorder(Joined(d), p) :: p == |TrimSpace(d.title)|
  }

  lemma OwnBorder(d: Document)
    ensures var s, p := Joined(d), |TrimSpace(d.title)|;
            p < |s| && IsBorder(s, p) && s[..p] == TrimSpace(d.title) && s[p + 1..] == NormalizeWhitespace(d.content)
  {
    TrimSpaceFixedPoints(d.title);
    NormalizeWhitespaceKeepsFields(d.content);
    var s, p := Joined(d), |TrimSpace(d.title)|;
    assert s[..p] == TrimSpace(d.title);
    assert s[p + 1..] == NormalizeWhitespace(d.content);
    hide TrimSpace, NormalizeWhitespace;
  }

  lemma SamePreimageIff(a: Document, b: Document)
    requires TrimSpace(a.language) == TrimSpace(b.language)
    ensures ContentPreimage(a) == ContentPreimage(b) <==> Joined(a) == Joined(b)
  {
    hide TrimSpace, NormalizeWhitespace;
    var l := TrimSpace(a.language) + "|";
    assert ContentPreimage(a) == l + Joined(a) && ContentPreimage(b) == l + Joined(b);
    assert (l + Joined(a))[|l|..] == Joined(a) && (l + Joined(b))[|l|..] == Joined(b);
  }

  /** Documents in languages of different names never share a hash. */
  lemma OtherLanguageOtherHash(h: Hash, a: Document, b: Document)
    requires Injective(h) && Free(TrimSpace(a.language), '|') && Free(TrimSpace(b.language), '|')
    requires TrimSpace(a.language) != TrimSpace(b.language) && ContentHash(h, a) != "" && ContentHash(h, b) != ""
    ensures ContentHash(h, a) != ContentHash(h, b)
  {
    hide TrimSpace, NormalizeWhitespace;
    var l, m := TrimSpace(a.language), TrimSpace(b.language);
    assert ContentPreimage(a) == l + "|" + Joined(a) && ContentPreimage(b) == m + "|" + Joined(b);
    if ContentPreimage(a) == ContentPreimage(b) {
      SplitAtFirst(l, m, Joined(a), Joined(b), '|');
    }
  }

  /** In one language, equal hashes of documents that are not blank mean equal joined texts. */
  lemma SameHashIff(h: Hash, a: Document, b: Document)
    requires Injective(h) && TrimSpace(a.language) == TrimSpace(b.language)
    requires ContentHash(h, a) != "" && ContentHash(h, b) != ""
    ensures ContentHash(h, a) == ContentHash(h, b) <==> Joined(a) == Joined(b)
  {
    SamePreimageIff(a, b);
    hide TrimSpace, NormalizeWhitespace, ContentPreimage;
  }

  lemma JoinedTellsApart(a: Document, b: Document)
    requires Unambiguous(a) && Joined(a) == Joined(b)
    ensures SameText(a, b)
  {
    OwnBorder(a);
    OwnBorder(b);
    hide TrimSpace, NormalizeWhitespace, Joined, IsBorder;
  }

  /** The document with another border between its title and its text. */
  lemma OtherBorder(d: Document, p: nat) returns (e: Document)
    requires p < |Joined(d)| && IsBorder(Joined(d), p) && p != |TrimSpace(d.title)|
    ensures e.language == d.language && Joined(e) == Joined(d) && !SameText(d, e)
  {
    var s := Joined(d);
    e := d.(title := s[..p], content := s[p + 1..]);
    TrimSpaceFixedPoints(s[..p]);
    assert s == s[..p] + "|" + s[p + 1..];
    hide TrimSpace, NormalizeWhitespace, Trimmed, Joined;
    assert Joined(e) == TrimSpace(e.title) + "|" + NormalizeWhitespace(e.content);
  }

  lemma BlankIff(h: Hash, d: Document)
    requires Digest(h)
    ensures ContentHash(h, d) == "" <==> Joined(d) == "|"
  {
    hide TrimSpace, NormalizeWhitespace, ContentPreimage;
    var t, c := TrimSpace(d.title), NormalizeWhitespace(d.content);
    assert |Joined(d)| == |t| + 1 + |c|;
  }

  /** A content hash tells a document from every other text in its language exactly when no bar in the title or the
      text could be their border. */
  lemma HashTellsApartIff(h: Hash, d: Document)
    requires Injective(h) && Digest(h) && ContentHash(h, d) != ""
    ensures Unambiguous(d)
       <==> forall e: Document | TrimSpace(e.language) == TrimSpace(d.language)
                                 && ContentHash(h, e) == ContentHash(h, d) :: SameText(d, e)
  {
    hide TrimSpace, NormalizeWhitespace, ContentHash, Joined, IsBorder, SameText, Digest, Injective;
    if Unambiguous(d) {
      forall e: Document | TrimSpace(e.language) == TrimSpace(d.language) && ContentHash(h, e) == ContentHash(h, d)
        ensures SameText(d, e)
      {
        SameHashIff(h, d, e);
        JoinedTellsApart(d, e);
      }
    } else {
      var p :| 0 <= p < |Joined(d)| && IsBorder(Joined(d), p) && p != |TrimSpace(d.title)|;
      var e := OtherBorder(d, p);
      BlankIff(h, d);
      BlankIff(h, e);
      SameHashIff(h, d, e);
    }
  }

  // ----- What a skip tells about the texts -----

  ghost predicate AllUnambiguous(docs: seq<Document>) {
    forall j | 0 <= j < |docs| :: Unambiguous(docs[j])
  }

  /** The text is the stored one of its language. */
  ghost predicate IsStored(variants: seq<Document>, doc: Document) {
    exists i :: 0 <= i < |variants| && variants[i].language == TrimSpace(doc.language) && SameText(variants[i], doc)
  }

  ghost predicate Unchanged(variants: seq<Document>, docs: seq<Document>) {
    forall j | 0 <= j < |docs| :: IsStored(variants, docs[j])
  }

  lemma KeptIffStored(h: Hash, variants: seq<Document>, doc: Document)
    requires Injective(h) && Digest(h) && AllHaveText(variants) && Unambiguous(doc)
    requires forall i | 0 <= i < |variants| :: IsCode(variants[i].language)
    ensures IsKept(h, variants, doc) <==> IsStored(variants, doc)
  {
    hide TrimSpace, NormalizeWhitespace, ContentHash, Joined, Digest, Injective, Unambiguous, Fields, SameText, IsCode;
    forall i | 0 <= i < |variants| && variants[i].language == TrimSpace(doc.language)
      ensures ContentHash(h, variants[i]) == ContentHash(h, doc) <==> SameText(variants[i], doc)
    {
      CodesAreTrimmed(variants[i].language);
      HashOfText(h, variants[i]);
      SameTextSameJoined(variants[i], doc);
      BlankIff(h, variants[i]);
      BlankIff(h, doc);
      if ContentHash(h, doc) != "" {
        SameHashIff(h, variants[i], doc);
        if Joined(variants[i]) == Joined(doc) {
          JoinedTellsApart(doc, variants[i]);
          Symmetric(doc, variants[i]);
        }
      }
    }
  }

  lemma SameTextSameJoined(a: Document, b: Document)
    ensures SameText(a, b) ==> Joined(a) == Joined(b)
  {
    hide TrimSpace, NormalizeWhitespace;
  }

  lemma Symmetric(a: Document, b: Document)
    ensures SameText(a, b) <==> SameText(b, a)
  {
    hide TrimSpace, NormalizeWhitespace;
  }

  lemma KeptIffUnchanged(h: Hash, variants: seq<Document>, docs: seq<Document>)
    requires Injective(h) && Digest(h) && AllHaveText(variants) && AllUnambiguous(docs)
    requires forall i | 0 <= i < |variants| :: IsCode(variants[i].language)
    ensures TextsKept(h, variants, docs) <==> Unchanged(variants, docs)
  {
    hide Injective, Digest, AllHaveText, Unambiguous, IsKept, IsStored, IsCode;
    forall j | 0 <= j < |docs|
      ensures IsKept(h, variants, docs[j]) <==> IsStored(variants, docs[j])
    {
      KeptIffStored(h, variants, docs[j]);
    }
  }

  lemma VariantCodes(x: Indexer, docs: seq<Document>, state: DocumentState, id: string)
    requires FirstRun(x, docs, state, id)
    ensures forall i | 0 <= i < |VariantsOf(x, docs, state)| :: IsCode(VariantsOf(x, docs, state)[i].language)
  {
    hide FirstRun, VariantsOf, Items, Completion, SizeOf, StepOf, SameID, Coherent, IsCode, TrimSpace;
    FirstRunFacts(x, docs, state, id);
  }

  /** Whether the run after the committed one skips `next`. */
  ghost predicate SkipsNext(x: Indexer, docs: seq<Document>, state: DocumentState, db: Database, id: string,
                            next: seq<Document>)
    requires FirstRun(x, docs, state, id)
  {
    ShouldSkip(x.s.hash, next, StateOf(Committed(db, Items(x, docs, state).value), id),
               RequiredLanguages(next, x.s.supported, "llm"), x.cfg)
  }

  /** After a committed run, documents without ambiguous bars are skipped exactly when they make as many chunks as are
      stored and either their source is the stored one, by its high fingerprint, or all their texts are unchanged. */
  lemma SkippedUnchangedIff(x: Indexer, docs: seq<Document>, state: DocumentState, db: Database, id: string,
                            next: seq<Document>)
    requires FirstRun(x, docs, state, id) && Digest(x.s.hash) && Injective(x.s.hash) && TrimSpace(id) == id
    requires AllHaveText(VariantsOf(x, docs, state)) && InSupported(x.s, next) && AllUnambiguous(next)
    ensures SkipsNext(x, docs, state, db, id, next)
            <==> ExpectedForGroup(next, x.cfg) == |Items(x, docs, state).value|
                 && (SourceKept(x.s.hash, VariantsOf(x, docs, state), next)
                     || Unchanged(VariantsOf(x, docs, state), next))
  {
    hide FirstRun, VariantsOf, Items, Committed, StateOf, ShouldSkip, RequiredLanguages, ExpectedForGroup, SourceKept,
         Unchanged, TextsKept, AllHaveText, AllUnambiguous, InSupported, Digest, Injective, TrimSpace, IsCode;
    SkippedAfterIff(x, docs, state, db, id, next);
    VariantCodes(x, docs, state, id);
    KeptIffUnchanged(x.s.hash, VariantsOf(x, docs, state), next);
  }

  // ----- Exactly when no change is missed -----

  /** Some source has the recorded fingerprint, and it counts as a high one. */
  ghost predicate Recognised(h: Hash, source: SourceMetadata) {
    && TrimSpace(source.confidence) == HIGH && TrimSpace(source.fingerprint) != ""
    && exists p :: SourceFingerprint(h, p) == (source.fingerprint, HIGH)
  }

  /** A prepared source that says anything is recognised exactly when it carries a date. */
  lemma RecognisedIffDated(h: Hash, doc: Document)
    requires Digest(h) && SourceFingerprint(h, doc.source).0 != ""
    ensures Recognised(h, WithIndexMetadata(h, doc).source)
            <==> doc.source.issuedAt != "" || doc.source.modifiedAt != ""
  {
    var prepared := WithIndexMetadata(h, doc).source;
    TrimSpaceFixedPoints(h(FingerprintPreimage(doc.source)));
    TrimSpaceFixedPoints(HIGH);
    TrimSpaceFixedPoints(LOW);
    hide TrimSpace, FingerprintPreimage, NormalizeWhitespace, ContentHash;
    assert (prepared.fingerprint, prepared.confidence) == SourceFingerprint(h, doc.source);
  }

  /** `n` words. */
  function Words(n: nat): seq<string> { seq(n, i => "x") }

  function Retitled(title: string): string { if TrimSpace(title) == "x" then "y" else "x" }

  /** A document of another title, as many words, and the given source. */
  function Rewrite(d: Document, source: SourceMetadata): Document {
    d.(title := Retitled(d.title), content := JoinWords(Words(|Fields(d.content)|)), source := source)
  }

  function Rewritten(docs: seq<Document>, source: SourceMetadata): (r: seq<Document>)
    ensures |r| == |docs|
  {
    seq(|docs|, i requires 0 <= i < |docs| => Rewrite(docs[i], source))
  }

  lemma {:induction false} WordsHaveNoBars(n: nat)
    ensures Free(JoinWords(Words(n)), '|')
  {
    if n > 1 {
      WordsHaveNoBars(n - 1);
      assert Words(n)[1..] == Words(n - 1);
    }
  }

  lemma RewriteChanges(d: Document, source: SourceMetadata)
    ensures var e := Rewrite(d, source);
            && |Fields(e.content)| == |Fields(d.content)| && Unambiguous(e)
            && TrimSpace(e.title) != TrimSpace(d.title)
  {
    hide TrimSpace, Fields, JoinWords, Words, NormalizeWhitespace, Unambiguous;
    var n := |Fields(d.content)|;
    WordsStay(n);
    TrimSpaceFixedPoints("x");
    TrimSpaceFixedPoints("y");
    BarlessIsUnambiguous(Rewrite(d, source));
  }

  lemma WordsStay(n: nat)
    ensures |Fields(JoinWords(Words(n)))| == n && NormalizeWhitespace(JoinWords(Words(n))) == JoinWords(Words(n))
    ensures Free(JoinWords(Words(n)), '|')
  {
    FieldsOfJoin(Words(n));
    WordsHaveNoBars(n);
    hide Fields, JoinWords;
  }

  lemma BarlessIsUnambiguous(d: Document)
    requires Free(TrimSpace(d.title), '|') && Free(NormalizeWhitespace(d.content), '|')
    ensures Unambiguous(d)
  {
    hide TrimSpace, NormalizeWhitespace, Trimmed;
  }

  lemma RewrittenCounts(x: Indexer, docs: seq<Document>, source: SourceMetadata)
    requires 0 < StepOf(x)
    ensures ExpectedForGroup(Rewritten(docs, source), x.cfg) == ExpectedForGroup(docs, x.cfg)
  {
    ExpectedIsSum(x, docs);
    ExpectedIsSum(x, Rewritten(docs, source));
    hide ExpectedForGroup, Sum, Fields, Rewrite, SizeOf, StepOf, ExpectedCount;
    forall i | 0 <= i < |docs|
      ensures |Fields(Rewritten(docs, source)[i].content)| == |Fields(docs[i].content)|
    {
      RewriteChanges(docs[i], source);
    }
    assert Counts(Rewritten(docs, source), SizeOf(x), StepOf(x)) == Counts(docs, SizeOf(x), StepOf(x));
  }

  lemma {:induction false} TrimmedLanguagesAreTheirs(docs: seq<Document>)
    ensures forall l | l in TrimmedLanguages(docs).0 :: TrimmedLanguages(docs).0[l] in docs
    decreases |docs|
  {
    hide TrimSpace;
    if docs != [] {
      TrimmedLanguagesAreTheirs(docs[..|docs| - 1]);
    }
  }

  lemma PickedIsOneOf(docs: seq<Document>)
    requires docs != []
    ensures PickSourceFromDocs(docs) in docs
  {
    TrimmedLanguagesAreTheirs(docs);
    var (byLang, langs) := TrimmedLanguages(docs);
    FirstPresentFinds(byLang, PREFERRED + langs);
    hide TrimmedLanguages, FirstPresent;
  }

  lemma RewrittenSource(h: Hash, variants: seq<Document>, p: SourceMetadata)
    requires variants != []
    requires var s := variants[|variants| - 1].source;
             && TrimSpace(s.confidence) == HIGH && TrimSpace(s.fingerprint) != ""
             && SourceFingerprint(h, p) == (s.fingerprint, HIGH)
    ensures SourceKept(h, variants, Rewritten(variants, p))
  {
    PickedIsOneOf(Rewritten(variants, p));
    hide TrimSpace, SourceFingerprint, PickSourceFromDocs;
  }

  lemma RewrittenIsChanged(x: Indexer, variants: seq<Document>, p: SourceMetadata)
    requires |variants| == |x.s.supported| && variants != [] && Distinct(x.s.supported)
    requires forall i | 0 <= i < |variants| :: variants[i].language == x.s.supported[i] && IsCode(variants[i].language)
    ensures InSupported(x.s, Rewritten(variants, p)) && AllUnambiguous(Rewritten(variants, p))
    ensures !Unchanged(variants, Rewritten(variants, p))
  {
    var next := Rewritten(variants, p);
    forall i | 0 <= i < |variants|
      ensures next[i].language == variants[i].language && Unambiguous(next[i])
      ensures TrimSpace(next[i].title) != TrimSpace(variants[i].title)
    {
      RewriteChanges(variants[i], p);
    }
    CodesAreTrimmed(variants[0].language);
    hide TrimSpace, Rewritten, Unambiguous, IsCode, NormalizeWhitespace;
    assert !IsStored(variants, next[0]);
  }

  /** No change of a text is ever missed, among documents without ambiguous bars, exactly when the source that wrote
      last is not recognised by its fingerprint: then a skip shows that all texts are those stored, and otherwise the
      next run skips documents with other titles and texts. */
  lemma ChangesAreSeenIff(x: Indexer, docs: seq<Document>, state: DocumentState, db: Database, id: string)
    requires FirstRun(x, docs, state, id) && Digest(x.s.hash) && Injective(x.s.hash) && TrimSpace(id) == id
    requires AllHaveText(VariantsOf(x, docs, state))
    ensures VariantsOf(x, docs, state) != []
    ensures var variants := VariantsOf(x, docs, state);
            (forall next | InSupported(x.s, next) && AllUnambiguous(next) && SkipsNext(x, docs, state, db, id, next) ::
               Unchanged(variants, next))
            <==> !Recognised(x.s.hash, variants[|variants| - 1].source)
  {
    var variants := VariantsOf(x, docs, state);
    hide FirstRun, VariantsOf, Items, Completion, SizeOf, StepOf, SameID, Coherent, Configured, TrimSpace, SkipsNext,
         Unchanged, AllUnambiguous, InSupported, Digest, Injective, AllHaveText, SourceKept, SourceFingerprint,
         ExpectedForGroup, Rewritten, IsCode, Distinct;
    FirstRunFacts(x, docs, state, id);
    var source := variants[|variants| - 1].source;
    if Recognised(x.s.hash, source) {
      var p :| SourceFingerprint(x.s.hash, p) == (source.fingerprint, HIGH);
      VariantCodes(x, docs, state, id);
      var next := Rewritten(variants, p);
      RewrittenIsChanged(x, variants, p);
      RewrittenSource(x.s.hash, variants, p);
      StoredAsExpected(x, docs, state, id);
      RewrittenCounts(x, variants, p);
      SkippedUnchangedIff(x, docs, state, db, id, next);
    } else {
      forall next | InSupported(x.s, next) && AllUnambiguous(next) && SkipsNext(x, docs, state, db, id, next)
        ensures Unchanged(variants, next)
      {
        SkippedUnchangedIff(x, docs, state, db, id, next);
        if SourceKept(x.s.hash, variants, next) {
          KeptIsRecognised(x.s.hash, variants, next);
        }
      }
    }
  }

  lemma KeptIsRecognised(h: Hash, variants: seq<Document>, docs: seq<Document>)
    requires variants != [] && SourceKept(h, variants, docs)
    ensures Recognised(h, variants[|variants| - 1].source)
  {
    hide TrimSpace, SourceFingerprint, PickSourceFromDocs;
    assert SourceFingerprint(h, PickSourceFromDocs(docs).source).1 == HIGH;
  }

  lemma StoredAsExpected(x: Indexer, docs: seq<Document>, state: DocumentState, id: string)
    requires FirstRun(x, docs, state, id)
    ensures ExpectedForGroup(VariantsOf(x, docs, state), x.cfg) == |Items(x, docs, state).value|
  {
    hide FirstRun, VariantsOf, Items, ChunksOfAll, SumCounts, Sum, Counts;
    FirstRunItems(x, docs, state, id);
    ExpectedIsChunkCount(VariantsOf(x, docs, state), x.s.known, SizeOf(x), StepOf(x));
  }

  // ----- Whose source is written last -----

  lemma PreparedSources(h: Hash, a: Document, b: Document)
    requires a.source == b.source || a.source == WithIndexMetadata(h, b).source
    ensures WithIndexMetadata(h, a).source == WithIndexMetadata(h, b).source
  {
    hide TrimSpace, NormalizeWhitespace, ContentHash;
  }

  lemma VariantSource(s: Settings, t: Translator, byLang: map<string, Document>, source: Document,
                      state: DocumentState, lang: string)
    requires Variant(s, t, byLang, source, state, lang).Success?
    ensures var v := Variant(s, t, byLang, source, state, lang).value;
            v.source == WithIndexMetadata(s.hash, if lang in byLang then byLang[lang] else source).source
  {
    hide WithIndexMetadata, TranslationSourceHash, BuildTranslationID, NormalizeWhitespace, NormalizeNonEmpty,
         Normalize, TrimSpace, Reusable;
    if lang in byLang {
      var d := byLang[lang];
      PreparedSources(s.hash, d.(metadata := d.metadata.(
        status := READY, provider := "source", sourceLang := d.language,
        sourceHash := TranslationSourceHash(s.hash, d.language, d.title, d.content))), d);
    } else {
      GeneratedSource(s, t, source, state, lang);
    }
  }

  lemma GeneratedSource(s: Settings, t: Translator, source: Document, state: DocumentState, lang: string)
    ensures Reusable(s, source, lang, state) ==>
              ReusedVariant(s, source, lang, state).source == WithIndexMetadata(s.hash, source).source
    ensures TranslatedVariant(s, t, source, lang).Success? ==>
              WithIndexMetadata(s.hash, TranslatedVariant(s, t, source, lang).value).source
              == WithIndexMetadata(s.hash, source).source
  {
    hide TranslationSourceHash, BuildTranslationID, NormalizeWhitespace, NormalizeNonEmpty, Normalize, TrimSpace,
         ContentHash;
  }

  /** A variant carries the prepared source of a document of the group, of the last one supplied in its language if
      there is any. */
  lemma SourceOfVariant(x: Indexer, docs: seq<Document>, state: DocumentState, id: string, i: nat) returns (j: nat)
    requires FirstRun(x, docs, state, id) && i < |VariantsOf(x, docs, state)|
    ensures |VariantsOf(x, docs, state)| == |x.s.supported| && j < |docs|
    ensures LastSupplied(x.s, docs, x.s.supported[i]) >= 0 ==> j == LastSupplied(x.s, docs, x.s.supported[i])
    ensures VariantsOf(x, docs, state)[i].source == WithIndexMetadata(x.s.hash, docs[j]).source
  {
    hide FirstRun, Items, SizeOf, StepOf, SameID, Coherent, Configured, TrimSpace, ByLanguage, Source, Variant,
         WithIndexMetadata, LastSupplied, BuildTranslationID;
    FirstRunFacts(x, docs, state, id);
    SourceIsAlwaysFound(x.s, docs);
    var byLang, source, lang := ByLanguage(x.s, docs), Source(x.s, docs).value, x.s.supported[i];
    CollectIsPointwise(VariantOf(x.s, x.t, byLang, source, state), x.s.supported);
    VariantSource(x.s, x.t, byLang, source, state, lang);
    ByLanguageHoldsLast(x.s, docs, lang);
    if lang in byLang {
      j := LastSupplied(x.s, docs, lang);
      PreparedSources(x.s.hash, byLang[lang], docs[j]);
    } else {
      var l :| l in byLang && source == WithIndexMetadata(x.s.hash, byLang[l]);
      ByLanguageHoldsLast(x.s, docs, l);
      j := LastSupplied(x.s, docs, l);
      PreparedSources(x.s.hash, byLang[l], docs[j]);
      PreparedSources(x.s.hash, source, docs[j]);
    }
  }

  /** Seen from the corpus: changes are never missed exactly when the document whose source is written last, which is
      the last one supplied in the last supported language if there is any, carries no date. */
  lemma ChangesAreSeenIffUndated(x: Indexer, docs: seq<Document>, state: DocumentState, db: Database, id: string)
    returns (j: nat)
    requires FirstRun(x, docs, state, id) && Digest(x.s.hash) && Injective(x.s.hash) && TrimSpace(id) == id
    requires AllHaveText(VariantsOf(x, docs, state))
    requires forall i | 0 <= i < |docs| :: SourceFingerprint(x.s.hash, docs[i].source).0 != ""
    ensures |VariantsOf(x, docs, state)| == |x.s.supported| > 0 && j < |docs|
    ensures var last := LastSupplied(x.s, docs, x.s.supported[|x.s.supported| - 1]);
            last >= 0 ==> j == last
    ensures (forall next | InSupported(x.s, next) && AllUnambiguous(next) && SkipsNext(x, docs, state, db, id, next) ::
               Unchanged(VariantsOf(x, docs, state), next))
            <==> docs[j].source.issuedAt == "" && docs[j].source.modifiedAt == ""
  {
    hide FirstRun, VariantsOf, SkipsNext, Unchanged, AllUnambiguous, InSupported, Recognised, AllHaveText, TrimSpace,
         LastSupplied, WithIndexMetadata, SourceFingerprint, Digest, Injective;
    ChangesAreSeenIff(x, docs, state, db, id);
    j := SourceOfVariant(x, docs, state, id, |VariantsOf(x, docs, state)| - 1);
    RecognisedIffDated(x.s.hash, docs[j]);
  }
}
