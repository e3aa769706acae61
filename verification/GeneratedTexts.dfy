/** What the variants hold that a run makes itself (translateDocument, reuseExistingReadyTranslation and
    pickSourceDocument in backend/internal/rag/translate.go). */
module GeneratedTexts {
  import opened Text
  import opened Documents
  import opened Lists
  import opened Chunking
  import opened Translations
  import opened IndexStore
  import opened IndexSkip
  import opened IndexRuns
  import opened Reindexing

  // ----- The source -----

  /** The source is the last document of a language that has one, when no language preferred to it has one: English
      before French, German, Italian and Romansh. */
  lemma SourceIsPreferred(s: Settings, docs: seq<Document>, lang: string, better: set<string>)
    requires docs != [] && s.supported != [] && LastSupplied(s, docs, lang) >= 0
    requires || (lang == "en" && better == {})
             || (lang == "fr" && better == {"en"})
             || (lang == "de" && better == {"en", "fr"})
             || (lang == "it" && better == {"en", "fr", "de"})
             || (lang == "rm" && better == {"en", "fr", "de", "it"})
    requires forall l | l in better :: LastSupplied(s, docs, l) < 0
    ensures Source(s, docs).Some?
    ensures var src, d := Source(s, docs).value, docs[LastSupplied(s, docs, lang)];
            src.id == d.id && src.language == lang && src.title == d.title && src.content == d.content
  {
    hide LastSupplied, Resolve, ByLanguage, WithIndexMetadata;
    var byLang := ByLanguage(s, docs);
    forall l | l in better
      ensures l !in byLang
    {
      ByLanguageHoldsLast(s, docs, l);
    }
    ByLanguageHoldsLast(s, docs, lang);
    PreferredOrder(byLang, s.supported);
    ResolveKeepsText(s, docs, lang);
    ResolvedLast(s, docs, lang);
    hide PickSource;
  }

  lemma ResolvedLast(s: Settings, docs: seq<Document>, lang: string)
    requires LastSupplied(s, docs, lang) >= 0
    ensures var d := docs[LastSupplied(s, docs, lang)]; Resolve(s, d).language == lang && Resolve(s, d).id == d.id
  {
    hide NormalizeOrFallback, BuildTranslationID;
  }

  // ----- Translated and reused texts -----

  /** A variant in a language without a document: what a stored translation that may be reused says, or else what the
      translator says to the source's title and content, from the source's language to the variant's. */
  ghost predicate IsGenerated(s: Settings, t: Translator, source: Document, state: DocumentState, lang: string,
                              v: Document)
  {
    if Reusable(s, source, lang, state) then
      && lang in state.translations
      && var row := state.translations[lang];
         && v.title == (if TrimSpace(row.title) == "" then source.title else row.title)
         && Fields(v.content) == Fields(row.content)
         && v.metadata.provider == (if TrimSpace(row.provider) == "" then "existing_db" else row.provider)
         && v.metadata.sourceLang == source.language && v.metadata.displayTitle == v.title
    else
      var title := t.translate(source.title, source.language, lang, TitleLabel);
      var content := t.translate(source.content, source.language, lang, ContentLabel);
      && title.Success? && content.Success?
      && v.title == title.value && v.metadata.displayTitle == title.value
      && Fields(v.content) == Fields(content.value)
      && v.metadata.provider == t.name && v.metadata.sourceLang == source.language
  }

  lemma PreparedKeeps(h: Hash, d: Document)
    ensures var v := WithIndexMetadata(h, d);
            && v.title == d.title && v.content == d.content && v.metadata.provider == d.metadata.provider
            && v.metadata.displayTitle == d.metadata.displayTitle && v.metadata.sourceLang == d.metadata.sourceLang
  {
    hide ContentHash, SourceFingerprint;
  }

  lemma ReusedTexts(s: Settings, source: Document, lang: string, state: DocumentState)
    requires IsCode(lang) && Reusable(s, source, lang, state)
    ensures lang in state.translations
    ensures var v, row := ReusedVariant(s, source, lang, state), state.translations[lang];
            && v.title == (if TrimSpace(row.title) == "" then source.title else row.title)
            && Fields(v.content) == Fields(row.content)
            && v.metadata.provider == (if TrimSpace(row.provider) == "" then "existing_db" else row.provider)
            && v.metadata.sourceLang == source.language && v.metadata.displayTitle == v.title
  {
    CodesAreTrimmed(lang);
    NormalizeWhitespaceKeepsFields(state.translations[lang].content);
    hide Fields, TrimSpace, NormalizeWhitespace, ContentHash, SourceFingerprint, TranslationSourceHash,
         BuildTranslationID, Normalize;
  }

  lemma TranslatedTexts(s: Settings, t: Translator, source: Document, lang: string)
    requires IsCode(lang) && IsCode(source.language) && TranslatedVariant(s, t, source, lang).Success?
    ensures var title := t.translate(source.title, source.language, lang, TitleLabel);
            var content := t.translate(source.content, source.language, lang, ContentLabel);
            var v := WithIndexMetadata(s.hash, TranslatedVariant(s, t, source, lang).value);
            && title.Success? && content.Success?
            && v.title == title.value && v.metadata.displayTitle == title.value
            && Fields(v.content) == Fields(content.value)
            && v.metadata.provider == t.name && v.metadata.sourceLang == source.language
  {
    hide Fields, TrimSpace, NormalizeWhitespace, Normalize, Translated, WithIndexMetadata;
    CodesAreTrimmed(lang);
    CodesAreTrimmed(source.language);
    var title := t.translate(source.title, source.language, lang, TitleLabel);
    var content := t.translate(source.content, source.language, lang, ContentLabel);
    if title.Success? && content.Success? {
      WrittenTexts(s, t, source, source.language, lang, title.value, content.value);
      PreparedKeeps(s.hash, Translated(s, t, source, source.language, lang, title.value, content.value));
    }
  }

  lemma WrittenTexts(s: Settings, t: Translator, source: Document, from: string, code: string, title: string,
                     content: string)
    ensures var v := Translated(s, t, source, from, code, title, content);
            && v.title == title && v.metadata.displayTitle == title && Fields(v.content) == Fields(content)
            && v.metadata.provider == t.name && v.metadata.sourceLang == from
  {
    NormalizeWhitespaceKeepsFields(content);
    hide Fields, TrimSpace, NormalizeWhitespace, ContentHash, SourceFingerprint, TranslationSourceHash,
         BuildTranslationID;
  }

  lemma VariantIsGenerated(s: Settings, t: Translator, byLang: map<string, Document>, source: Document,
                           state: DocumentState, lang: string)
    requires IsCode(lang) && IsCode(source.language) && lang !in byLang
    requires Variant(s, t, byLang, source, state, lang).Success?
    ensures IsGenerated(s, t, source, state, lang, Variant(s, t, byLang, source, state, lang).value)
  {
    hide ReusedVariant, TranslatedVariant, Reusable, WithIndexMetadata, Fields, TrimSpace;
    if Reusable(s, source, lang, state) {
      ReusedTexts(s, source, lang, state);
    } else {
      TranslatedTexts(s, t, source, lang);
    }
  }

  /** In every successful completion, the variant of a language that no document is filed under is generated from the
      source. */
  lemma MissingLanguagesAreGenerated(s: Settings, t: Translator, docs: seq<Document>, state: DocumentState, i: nat)
    requires Configured(s) && docs != [] && i < |s.supported| && Completion(s, t, docs, state).Success?
    requires LastSupplied(s, docs, s.supported[i]) < 0
    ensures Source(s, docs).Some? && i < |Completion(s, t, docs, state).value|
    ensures IsGenerated(s, t, Source(s, docs).value, state, s.supported[i], Completion(s, t, docs, state).value[i])
  {
    hide ByLanguage, Source, Variant, LastSupplied, Configured, IsGenerated, IsCode;
    SourceLanguageIsCode(s, docs);
    ConfiguredCode(s, i);
    var byLang, source := ByLanguage(s, docs), Source(s, docs).value;
    CollectIsPointwise(VariantOf(s, t, byLang, source, state), s.supported);
    ByLanguageHoldsLast(s, docs, s.supported[i]);
    VariantIsGenerated(s, t, byLang, source, state, s.supported[i]);
  }

  /** The translator answers for both the title and the content of the source. */
  predicate Answers(t: Translator, source: Document, lang: string) {
    && t.translate(source.title, source.language, lang, TitleLabel).Success?
    && t.translate(source.content, source.language, lang, ContentLabel).Success?
  }

  lemma TranslationSucceedsIff(s: Settings, t: Translator, source: Document, lang: string)
    requires IsCode(lang) && IsCode(source.language)
    ensures TranslatedVariant(s, t, source, lang).Success? <==> Answers(t, source, lang)
  {
    CodesAreTrimmed(lang);
    CodesAreTrimmed(source.language);
    hide Translated, Normalize, TrimSpace, IsCode;
  }

  lemma VariantSucceedsIff(s: Settings, t: Translator, byLang: map<string, Document>, source: Document,
                           state: DocumentState, lang: string)
    requires IsCode(lang) && IsCode(source.language)
    ensures Variant(s, t, byLang, source, state, lang).Success?
            <==> lang in byLang || Reusable(s, source, lang, state) || Answers(t, source, lang)
  {
    hide Reusable, ReusedVariant, SuppliedVariant, TranslatedVariant, WithIndexMetadata, Answers, IsCode;
    TranslationSucceedsIff(s, t, source, lang);
  }

  /** Completion succeeds exactly when every supported language is supplied, or has a stored translation that may be
      reused, or is answered for by the translator, title and content. */
  lemma CompletionSucceedsIff(s: Settings, t: Translator, docs: seq<Document>, state: DocumentState)
    requires Configured(s) && docs != [] && s.supported != []
    ensures Source(s, docs).Some?
    ensures Completion(s, t, docs, state).Success?
       <==> forall i | 0 <= i < |s.supported| ::
              || LastSupplied(s, docs, s.supported[i]) >= 0
              || Reusable(s, Source(s, docs).value, s.supported[i], state)
              || Answers(t, Source(s, docs).value, s.supported[i])
  {
    hide ByLanguage, Source, Variant, LastSupplied, Configured, IsCode, Reusable, Answers;
    SourceLanguageIsCode(s, docs);
    var byLang, source := ByLanguage(s, docs), Source(s, docs).value;
    CollectIsPointwise(VariantOf(s, t, byLang, source, state), s.supported);
    forall i | 0 <= i < |s.supported|
      ensures VariantOf(s, t, byLang, source, state)(s.supported[i]).Success?
         <==> || LastSupplied(s, docs, s.supported[i]) >= 0 || Reusable(s, source, s.supported[i], state)
              || Answers(t, source, s.supported[i])
    {
      ConfiguredCode(s, i);
      ByLanguageHoldsLast(s, docs, s.supported[i]);
      VariantSucceedsIff(s, t, byLang, source, state, s.supported[i]);
    }
  }

  /** A stored translation may be reused exactly when it is ready, has text, and carries the hash of the source as it is
      now. */
  lemma ReusableIff(s: Settings, source: Document, lang: string, state: DocumentState)
    requires IsCode(lang) && Digest(s.hash)
    ensures Reusable(s, source, lang, state)
            <==> && lang in state.translations
                 && state.translations[lang].status == "ready"
                 && TrimSpace(state.translations[lang].content) != ""
                 && state.translations[lang].sourceHash
                    == TranslationSourceHash(s.hash, source.language, source.title, source.content)
  {
    CodesAreTrimmed(lang);
    TrimSpaceFixedPoints(CurrentSourceHash(s, source));
    hide TrimSpace, Normalize, IsCode;
  }

  // ----- When a stored translation is out of date -----

  lemma SourceHashesAgreeIff(h: Hash, a: Document, b: Document)
    requires Injective(h) && IsCode(a.language) && IsCode(b.language)
    requires Free(TrimSpace(a.title), '|') && Free(TrimSpace(b.title), '|')
    ensures TranslationSourceHash(h, a.language, a.title, a.content)
            == TranslationSourceHash(h, b.language, b.title, b.content)
            <==> a.language == b.language && TrimSpace(a.title) == TrimSpace(b.title)
                 && TrimSpace(a.content) == TrimSpace(b.content)
  {
    hide TrimSpace, IsCode, Free;
    CodesAreTrimmed(a.language);
    CodesAreTrimmed(b.language);
    CodesHaveNoBars(a.language);
    CodesHaveNoBars(b.language);
    ThreeReadBack(a.language, TrimSpace(a.title), TrimSpace(a.content),
                  b.language, TrimSpace(b.title), TrimSpace(b.content));
  }

  lemma ThreeReadBack(l: string, t: string, c: string, m: string, u: string, d: string)
    requires Free(l, '|') && Free(m, '|') && Free(t, '|') && Free(u, '|')
    ensures l + "|" + t + "|" + c == m + "|" + u + "|" + d <==> l == m && t == u && c == d
  {
    assert l + "|" + t + "|" + c == l + "|" + (t + "|" + c);
    assert m + "|" + u + "|" + d == m + "|" + (u + "|" + d);
    hide Free;
    if l + "|" + t + "|" + c == m + "|" + u + "|" + d {
      SplitAtFirst(l, m, t + "|" + c, u + "|" + d, '|');
      SplitAtFirst(t, u, c, d, '|');
    }
  }

  lemma CodesHaveNoBars(code: string)
    requires IsCode(code)
    ensures Free(code, '|')
  {
  }

  /** A translation that a run has made is reused by a later run, whatever that run is given, exactly when the source
      still has the same language, title and content, up to white space around them. Titles with bars could deceive
      the hash, so they are left out here. */
  lemma ReusedIffSourceUnchanged(x: Indexer, docs: seq<Document>, state: DocumentState, db: Database, id: string,
                                 i: nat, next: seq<Document>)
    requires FirstRun(x, docs, state, id) && Digest(x.s.hash) && Injective(x.s.hash) && TrimSpace(id) == id
    requires i < |x.s.supported| && LastSupplied(x.s, docs, x.s.supported[i]) < 0 && next != []
    requires i < |VariantsOf(x, docs, state)| && Fields(VariantsOf(x, docs, state)[i].content) != []
    ensures Source(x.s, docs).Some? && Source(x.s, next).Some?
    ensures var made, now := Source(x.s, docs).value, Source(x.s, next).value;
            Free(TrimSpace(made.title), '|') && Free(TrimSpace(now.title), '|') ==>
              (Reusable(x.s, now, x.s.supported[i], StateOf(Committed(db, Items(x, docs, state).value), id))
               <==> now.language == made.language && TrimSpace(now.title) == TrimSpace(made.title)
                    && TrimSpace(now.content) == TrimSpace(made.content))
  {
    hide FirstRun, VariantsOf, Items, Committed, StateOf, Fields, TrimSpace, ByLanguage, Source, NormalizeWhitespace,
         SizeOf, StepOf, Coherent, Configured, SameID, Completion, LastSupplied, Injective, Digest, IsCode;
    FirstRunFacts(x, docs, state, id);
    ByLanguageHoldsLast(x.s, docs, x.s.supported[i]);
    SourceHashOfMissing(x, docs, state, id, i);
    StoredTranslationIsWholeIff(x, docs, state, db, id, i);
    VariantsAreReady(x, docs, state, id);
    SourceLanguageIsCode(x.s, docs);
    SourceLanguageIsCode(x.s, next);
    var made, now := Source(x.s, docs).value, Source(x.s, next).value;
    ConfiguredCode(x.s, i);
    var st := StateOf(Committed(db, Items(x, docs, state).value), id);
    ReusableByHashIff(x.s, now, x.s.supported[i], st, CurrentSourceHash(x.s, made));
    if Free(TrimSpace(made.title), '|') && Free(TrimSpace(now.title), '|') {
      SourceHashesAgreeIff(x.s.hash, made, now);
    }
  }

  lemma ReusableByHashIff(s: Settings, source: Document, lang: string, st: DocumentState, hash: string)
    requires IsCode(lang) && lang in st.translations && Digest(s.hash)
    requires var row := st.translations[lang];
             row.status == READY && TrimSpace(row.content) != "" && row.sourceHash == hash
    requires exists d :: hash == CurrentSourceHash(s, d)
    ensures Reusable(s, source, lang, st) <==> hash == CurrentSourceHash(s, source)
  {
    CodesAreTrimmed(lang);
    TrimSpaceFixedPoints(hash);
    hide TrimSpace, Normalize, IsCode;
  }

  lemma RowKeepsTitle(c: Chunk)
    ensures RowOf(c).title == if TrimSpace(c.title) == "" then "Sans titre" else c.title
    ensures RowOf(c).provider == c.metadata.provider
    ensures TrimSpace(c.translationID) != "" ==> RowOf(c).translationID == c.translationID
  {
    hide TrimSpace;
  }

  /** A reused translation keeps the title it was made with, and the name of the service that made it. */
  lemma ReuseKeepsTitle(x: Indexer, docs: seq<Document>, state: DocumentState, db: Database, id: string, i: nat,
                        source: Document)
    requires FirstRun(x, docs, state, id) && TrimSpace(id) == id && i < |x.s.supported|
    requires i < |VariantsOf(x, docs, state)| && Fields(VariantsOf(x, docs, state)[i].content) != []
    requires var st := StateOf(Committed(db, Items(x, docs, state).value), id);
             Reusable(x.s, source, x.s.supported[i], st)
    ensures var made := VariantsOf(x, docs, state)[i];
            var st := StateOf(Committed(db, Items(x, docs, state).value), id);
            var reused := ReusedVariant(x.s, source, x.s.supported[i], st);
            && (TrimSpace(made.title) != "" ==> reused.title == made.title)
            && (TrimSpace(made.metadata.provider) != "" ==> reused.metadata.provider == made.metadata.provider)
  {
    hide FirstRun, VariantsOf, Items, Committed, StateOf, Fields, TrimSpace, NormalizeWhitespace, SizeOf, StepOf,
         Coherent, Configured, SameID, Completion, IsCode, Reusable, ReusedVariant, RowOf, ChunksOf;
    FirstRunFacts(x, docs, state, id);
    StoredRowOf(x, docs, state, db, id, i);
    var v := VariantsOf(x, docs, state)[i];
    NoChunksWithoutText(v, x.s.known, SizeOf(x), StepOf(x));
    var cs := ChunksOf(v, x.s.known, SizeOf(x), StepOf(x));
    RowKeepsTitle(cs[|cs| - 1]);
    ConfiguredCode(x.s, i);
    ReusedTexts(x.s, source, x.s.supported[i], StateOf(Committed(db, Items(x, docs, state).value), id));
  }

  /** A stored translation is filed under the document's id and its own language. */
  lemma RowIsFiledUnderItsLanguage(x: Indexer, docs: seq<Document>, state: DocumentState, db: Database, id: string,
                                   i: nat)
    requires FirstRun(x, docs, state, id) && TrimSpace(id) == id && i < |x.s.supported|
    requires i < |VariantsOf(x, docs, state)| && Fields(VariantsOf(x, docs, state)[i].content) != []
    ensures var st := StateOf(Committed(db, Items(x, docs, state).value), id);
            x.s.supported[i] in st.translations
            && st.translations[x.s.supported[i]].translationID == id + ":" + x.s.supported[i]
  {
    hide FirstRun, VariantsOf, Items, Committed, StateOf, Fields, TrimSpace, SizeOf, StepOf, Configured, SameID,
         Completion, IsCode, RowOf, ChunksOf, BuildTranslationID, LastSupplied;
    FirstRunFacts(x, docs, state, id);
    StoredRowOf(x, docs, state, db, id, i);
    var v := VariantsOf(x, docs, state)[i];
    NoChunksWithoutText(v, x.s.known, SizeOf(x), StepOf(x));
    var cs := ChunksOf(v, x.s.known, SizeOf(x), StepOf(x));
    RowKeepsTitle(cs[|cs| - 1]);
    VariantIsFiled(x, docs, state, id, i);
    IDsAreVisible(id, x.s.supported[i]);
  }

  lemma VariantIsFiled(x: Indexer, docs: seq<Document>, state: DocumentState, id: string, i: nat)
    requires FirstRun(x, docs, state, id) && i < |x.s.supported| && i < |VariantsOf(x, docs, state)|
    ensures VariantsOf(x, docs, state)[i].translationID == id + ":" + x.s.supported[i]
  {
    hide FirstRun, Items, Fields, TrimSpace, SizeOf, StepOf, Configured, SameID, Completion, IsCode, LastSupplied;
    FirstRunFacts(x, docs, state, id);
    CompletionIsTotal(x.s, x.t, docs, state, id);
    ConfiguredCode(x.s, i);
    CodesAreTrimmed(x.s.supported[i]);
    hide Normalize;
  }

  lemma IDsAreVisible(id: string, code: string)
    requires TrimSpace(id) == id && TrimSpace(id) != ""
    ensures TrimSpace(id + ":" + code) != ""
  {
    TrimSpaceFixedPoints(id);
    assert (id + ":" + code)[|id|] == ':';
    if TrimSpace(id + ":" + code) == "" {
      TrimmedAway(id + ":" + code);
    }
    hide TrimSpace;
  }
}
