/** Completing a document with one variant per supported language
    (EnsureMissingTranslationsWithOptions in backend/internal/rag/translate.go, for one document id). */
module Translations {
  import opened Text
  import opened Documents
  import opened Lists

  datatype Label = TitleLabel | ContentLabel

  /** A translation service: a name, and a call (text, source language, target language, label) that may fail. */
  datatype Translator = Translator(name: string, translate: (string, string, string, Label) -> Result<string>)

  datatype Settings = Settings(hash: Hash, supported: seq<string>, defaultLang: string, known: seq<string>)

  // ----- Which variants there are -----

  function DefaultLanguage(s: Settings): string {
    NormalizeOrFallback(s.defaultLang, "fr", s.supported)
  }

  function Resolve(s: Settings, doc: Document): Document {
    var language := NormalizeOrFallback(doc.language, DefaultLanguage(s), s.supported);
    doc.(language := language, translationID := BuildTranslationID(doc.id, language, s.known))
  }

  /** The supplied variants by language; a later document replaces an earlier one. */
  function ByLanguage(s: Settings, docs: seq<Document>): map<string, Document> {
    if docs == [] then map[]
    else
      var d := Resolve(s, docs[|docs| - 1]);
      ByLanguage(s, docs[..|docs| - 1])[d.language := d]
  }

  method GroupByLanguage(s: Settings, docs: seq<Document>) returns (byLang: map<string, Document>)
    ensures byLang == ByLanguage(s, docs)
  {
    byLang := map[];
    for i := 0 to |docs|
      invariant byLang == ByLanguage(s, docs[..i])
    {
      var d := Resolve(s, docs[i]);
      assert docs[..i + 1][..i] == docs[..i];
      byLang := byLang[d.language := d];
    }
    assert docs[..|docs|] == docs;
  }

  const PREFERRED := ["en", "fr", "de", "it", "rm"]

  function FirstPresent(byLang: map<string, Document>, order: seq<string>): Option<Document> {
    if order == [] then None
    else if order[0] in byLang then Some(byLang[order[0]])
    else FirstPresent(byLang, order[1..])
  }

  function PickSource(byLang: map<string, Document>, languages: seq<string>): Option<Document> {
    FirstPresent(byLang, PREFERRED + languages)
  }

  /** English before French, German, Italian and Romansh, and then the listed languages in order. */
  lemma PreferredOrder(byLang: map<string, Document>, languages: seq<string>)
    ensures PickSource(byLang, languages)
            == if "en" in byLang then Some(byLang["en"])
               else if "fr" in byLang then Some(byLang["fr"])
               else if "de" in byLang then Some(byLang["de"])
               else if "it" in byLang then Some(byLang["it"])
               else if "rm" in byLang then Some(byLang["rm"])
               else FirstPresent(byLang, languages)
  {
    var t0 := PREFERRED + languages;
    var t1 := t0[1..];
    var t2 := t1[1..];
    var t3 := t2[1..];
    var t4 := t3[1..];
    assert t0[0] == "en" && t1[0] == "fr" && t2[0] == "de" && t3[0] == "it" && t4[0] == "rm";
    assert t4[1..] == languages;
    assert FirstPresent(byLang, t4) == if "rm" in byLang then Some(byLang["rm"]) else FirstPresent(byLang, languages);
    assert FirstPresent(byLang, t3) == if "it" in byLang then Some(byLang["it"]) else FirstPresent(byLang, t4);
    assert FirstPresent(byLang, t2) == if "de" in byLang then Some(byLang["de"]) else FirstPresent(byLang, t3);
    assert FirstPresent(byLang, t1) == if "fr" in byLang then Some(byLang["fr"]) else FirstPresent(byLang, t2);
  }

  /** The first present language in order of preference, or else any variant there is. */
  method PickSourceDocument(byLang: map<string, Document>, languages: seq<string>) returns (r: Option<Document>)
    ensures PickSource(byLang, languages).Some? ==> r == PickSource(byLang, languages)
    ensures PickSource(byLang, languages).None? ==>
              if byLang == map[] then r.None? else r.Some? && exists l :: l in byLang && r.value == byLang[l]
  {
    var preferred := PREFERRED + languages;
    var seen: set<string> := {};
    for i := 0 to |preferred|
      invariant forall l | l in seen :: l !in byLang
      invariant FirstPresent(byLang, preferred) == FirstPresent(byLang, preferred[i..])
    {
      var code := preferred[i];
      if code in seen {
        continue;
      }
      seen := seen + {code};
      if code in byLang {
        return Some(byLang[code]);
      }
    }
    if byLang.Keys != {} {
      var l :| l in byLang.Keys;
      return Some(byLang[l]);
    }
    return None;
  }

  // ----- One variant -----

  function SuppliedVariant(s: Settings, doc: Document): Document {
    WithIndexMetadata(s.hash, doc.(metadata := doc.metadata.(
      status := READY, provider := "source", sourceLang := doc.language,
      sourceHash := TranslationSourceHash(s.hash, doc.language, doc.title, doc.content))))
  }

  /** The hash a stored translation must carry to stand for the current source. */
  function CurrentSourceHash(s: Settings, source: Document): string {
    TranslationSourceHash(s.hash, source.language, source.title, source.content)
  }

  /** When reuseExistingReadyTranslation takes the stored row instead of translating. */
  predicate Reusable(s: Settings, source: Document, lang: string, state: DocumentState) {
    && Normalize(lang) != ""
    && Normalize(lang) in state.translations
    && var row := state.translations[Normalize(lang)];
       && row.status == READY
       && TrimSpace(row.content) != ""
       && TrimSpace(row.sourceHash) != ""
       && row.sourceHash == CurrentSourceHash(s, source)
  }

  function ReusedVariant(s: Settings, source: Document, lang: string, state: DocumentState): Document
    requires Reusable(s, source, lang, state)
  {
    var code := Normalize(lang);
    var row := state.translations[code];
    WithIndexMetadata(s.hash, source.(
      translationID := BuildTranslationID(source.id, code, s.known),
      language := code,
      title := NormalizeNonEmpty(row.title, source.title),
      content := NormalizeWhitespace(row.content),
      metadata := source.metadata.(
        displayTitle := NormalizeNonEmpty(row.title, source.title), status := READY,
        provider := NormalizeNonEmpty(row.provider, "existing_db"),
        sourceLang := source.language, sourceHash := CurrentSourceHash(s, source))))
  }

  /** The variant made of a translated title and content. */
  function Translated(s: Settings, t: Translator, source: Document, from: string, code: string, title: string,
                      content: string): Document {
    WithIndexMetadata(s.hash, source.(
      translationID := BuildTranslationID(source.id, code, s.known),
      language := code, title := title, content := NormalizeWhitespace(content),
      metadata := source.metadata.(
        displayTitle := title, status := READY, provider := t.name, sourceLang := from,
        sourceHash := TranslationSourceHash(s.hash, from, source.title, source.content))))
  }

  function TranslatedVariant(s: Settings, t: Translator, source: Document, lang: string): Result<Document> {
    var code := Normalize(lang);
    if code == "" then Failure(InvalidTargetLanguage)
    else
      var from := if Normalize(source.language) == "" then "en" else Normalize(source.language);
      var title := t.translate(source.title, from, code, TitleLabel);
      if title.Failure? then Failure(title.error)
      else
        var content := t.translate(source.content, from, code, ContentLabel);
        if content.Failure? then Failure(content.error)
        else Success(Translated(s, t, source, from, code, title.value, content.value))
  }

  function Variant(s: Settings, t: Translator, byLang: map<string, Document>, source: Document,
                   state: DocumentState, lang: string): Result<Document>
  {
    if lang in byLang then Success(SuppliedVariant(s, byLang[lang]))
    else if Reusable(s, source, lang, state) then Success(ReusedVariant(s, source, lang, state))
    else
      var r := TranslatedVariant(s, t, source, lang);
      if r.Failure? then r else Success(WithIndexMetadata(s.hash, r.value))
  }

  method MakeVariant(s: Settings, t: Translator, byLang: map<string, Document>, source: Document,
                     state: DocumentState, lang: string) returns (r: Result<Document>)
    ensures r == Variant(s, t, byLang, source, state, lang)
  {
    if lang in byLang {
      return Success(SuppliedVariant(s, byLang[lang]));
    }
    if Reusable(s, source, lang, state) {
      return Success(ReusedVariant(s, source, lang, state));
    }
    r := TranslatedVariant(s, t, source, lang);
    if r.Success? {
      r := Success(WithIndexMetadata(s.hash, r.value));
    }
  }

  // ----- The whole document -----

  function VariantOf(s: Settings, t: Translator, byLang: map<string, Document>, source: Document,
                     state: DocumentState): string -> Result<Document>
  {
    lang => Variant(s, t, byLang, source, state, lang)
  }

  /** The source variant every missing language is derived from. */
  function Source(s: Settings, docs: seq<Document>): Option<Document> {
    var r := PickSource(ByLanguage(s, docs), s.supported);
    if r.None? then None else Some(WithIndexMetadata(s.hash, r.value))
  }

  function Completion(s: Settings, t: Translator, docs: seq<Document>, state: DocumentState): Result<seq<Document>> {
    if docs == [] then Success([])
    else if s.supported == [] then Failure(NoSupportedLanguages)
    else if Source(s, docs).None? then Failure(NoSourceTranslation)
    else Collect(VariantOf(s, t, ByLanguage(s, docs), Source(s, docs).value, state), s.supported)
  }

  /** The loop over the supported languages. */
  method MakeVariants(s: Settings, t: Translator, byLang: map<string, Document>, source: Document, state: DocumentState)
    returns (r: Result<seq<Document>>)
    ensures r == Collect(VariantOf(s, t, byLang, source, state), s.supported)
  {
    hide Variant, Reusable, WithIndexMetadata;
    ghost var variant := VariantOf(s, t, byLang, source, state);
    var out: seq<Document> := [];
    for i := 0 to |s.supported|
      invariant Success(out) == Collect(variant, s.supported[..i])
    {
      assert s.supported[..i + 1][..i] == s.supported[..i];
      var made := MakeVariant(s, t, byLang, source, state, s.supported[i]);
      assert made == variant(s.supported[i]);
      if made.Failure? {
        CollectFailureSpreads(variant, s.supported, i + 1);
        return Failure(made.error);
      }
      out := out + [made.value];
    }
    assert s.supported[..|s.supported|] == s.supported;
    return Success(out);
  }

  method EnsureMissingTranslations(s: Settings, t: Translator, docs: seq<Document>, state: DocumentState)
    returns (r: Result<seq<Document>>)
    ensures r == Completion(s, t, docs, state)
  {
    if docs == [] {
      return Success([]);
    }
    if s.supported == [] {
      return Failure(NoSupportedLanguages);
    }
    var byLang := GroupByLanguage(s, docs);
    SourceIsAlwaysFound(s, docs);
    var picked := PickSourceDocument(byLang, s.supported);
    if picked.None? {
      return Failure(NoSourceTranslation);
    }
    var source := WithIndexMetadata(s.hash, picked.value);
    r := MakeVariants(s, t, byLang, source, state);
  }

  // ----- What completion promises -----

  /** Configured languages: normalised codes without repetition, as `langs.ParseSupported` yields. */
  ghost predicate Configured(s: Settings) {
    && (forall i | 0 <= i < |s.supported| :: IsCode(s.supported[i]))
    && (forall i, j | 0 <= i < j < |s.supported| :: s.supported[i] != s.supported[j])
  }

  /** The position of the last of `docs` whose language resolves to `lang`, or -1. */
  function LastSupplied(s: Settings, docs: seq<Document>, lang: string): (i: int)
    ensures -1 <= i < |docs|
  {
    LastIndex(docs, (d: Document) => Resolve(s, d).language == lang)
  }

  lemma LastSuppliedGrows(s: Settings, docs: seq<Document>, lang: string)
    requires docs != []
    ensures var n := |docs| - 1;
            LastSupplied(s, docs, lang)
            == if Resolve(s, docs[n]).language == lang then n else LastSupplied(s, docs[..n], lang)
  {
    hide Resolve;
  }

  lemma {:induction false} ByLanguageHoldsLast(s: Settings, docs: seq<Document>, lang: string)
    ensures lang in ByLanguage(s, docs) <==> LastSupplied(s, docs, lang) >= 0
    ensures lang in ByLanguage(s, docs) ==> ByLanguage(s, docs)[lang] == Resolve(s, docs[LastSupplied(s, docs, lang)])
    decreases |docs|
  {
    hide Resolve;
    if docs != [] {
      ByLanguageHoldsLast(s, docs[..|docs| - 1], lang);
      LastSuppliedGrows(s, docs, lang);
      hide LastSupplied;
    }
  }

  lemma {:induction false} FirstPresentFinds(byLang: map<string, Document>, order: seq<string>)
    ensures FirstPresent(byLang, order).Some? <==> exists i :: 0 <= i < |order| && order[i] in byLang
    ensures FirstPresent(byLang, order).Some? ==>
              exists l :: l in byLang && FirstPresent(byLang, order).value == byLang[l]
    decreases |order|
  {
    if order != [] && order[0] !in byLang {
      FirstPresentFinds(byLang, order[1..]);
      if i :| 0 <= i < |order[1..]| && order[1..][i] in byLang {
        assert order[i + 1] in byLang;
      }
      if i :| 0 <= i < |order| && order[i] in byLang {
        assert order[1..][i - 1] in byLang;
      }
    }
  }

  lemma ResolvedIsListed(s: Settings, doc: Document)
    requires s.supported != []
    ensures Resolve(s, doc).language in PREFERRED + s.supported
  {
    hide BuildTranslationID;
    var order, l := PREFERRED + s.supported, Resolve(s, doc).language;
    if l == "fr" {
      assert order[1] == l;
    } else {
      assert l in s.supported;
    }
  }

  /** Some supplied document always serves as the source, so the random choice is never made. */
  lemma SourceIsAlwaysFound(s: Settings, docs: seq<Document>)
    requires docs != [] && s.supported != []
    ensures Source(s, docs).Some?
    ensures exists l ::
              l in ByLanguage(s, docs) && Source(s, docs).value == WithIndexMetadata(s.hash, ByLanguage(s, docs)[l])
  {
    hide Resolve, WithIndexMetadata, FirstPresent;
    var byLang, order := ByLanguage(s, docs), PREFERRED + s.supported;
    var l := Resolve(s, docs[|docs| - 1]).language;
    assert l in byLang;
    ResolvedIsListed(s, docs[|docs| - 1]);
    var i :| 0 <= i < |order| && order[i] == l;
    FirstPresentFinds(byLang, order);
  }

  /** All the documents of the group carry one id. */
  ghost predicate SameID(docs: seq<Document>, id: string) {
    forall i | 0 <= i < |docs| :: docs[i].id == id
  }

  lemma {:induction false} ByLanguageKeepsID(s: Settings, docs: seq<Document>, id: string)
    requires SameID(docs, id)
    ensures forall l | l in ByLanguage(s, docs) ::
              ByLanguage(s, docs)[l].id == id && ByLanguage(s, docs)[l].language == l
                    && ByLanguage(s, docs)[l].translationID == BuildTranslationID(id, l, s.known)
    decreases |docs|
  {
    if docs != [] {
      ByLanguageKeepsID(s, docs[..|docs| - 1], id);
    }
  }

  /** A variant is filed under the language it was made for; a supplied one keeps title and content. */
  lemma VariantShape(s: Settings, t: Translator, byLang: map<string, Document>, source: Document,
                     state: DocumentState, lang: string)
    requires IsCode(lang)
    requires lang in byLang ==>
               && byLang[lang].language == lang && byLang[lang].id == source.id
               && byLang[lang].translationID == BuildTranslationID(source.id, lang, s.known)
    requires Variant(s, t, byLang, source, state, lang).Success?
    ensures var v := Variant(s, t, byLang, source, state, lang).value;
      && v.id == source.id && v.language == lang && v.metadata.status == READY
      && v.translationID == BuildTranslationID(source.id, lang, s.known)
      && (lang in byLang ==> v.title == byLang[lang].title && v.content == byLang[lang].content)
  {
    CodesAreTrimmed(lang);
    hide WithIndexMetadata, TranslationSourceHash, BuildTranslationID, NormalizeWhitespace, NormalizeNonEmpty,
         Normalize;
  }

  /** A variant carries the hash of its own language, title and content. */
  lemma VariantCarriesHash(s: Settings, t: Translator, byLang: map<string, Document>, source: Document,
                           state: DocumentState, lang: string)
    requires Variant(s, t, byLang, source, state, lang).Success?
    ensures var v := Variant(s, t, byLang, source, state, lang).value;
      ContentHash(s.hash, v) != "" ==> v.metadata.contentHash == ContentHash(s.hash, v)
  {
    hide TranslationSourceHash, BuildTranslationID, NormalizeWhitespace, NormalizeNonEmpty, Normalize,
         SourceFingerprint, TrimSpace;
  }

  lemma ConfiguredCode(s: Settings, i: nat)
    requires Configured(s) && i < |s.supported|
    ensures IsCode(s.supported[i])
  {
  }

  lemma ResolveKeepsText(s: Settings, docs: seq<Document>, lang: string)
    requires LastSupplied(s, docs, lang) >= 0
    ensures var d := docs[LastSupplied(s, docs, lang)];
            Resolve(s, d).title == d.title && Resolve(s, d).content == d.content
  {
    hide NormalizeOrFallback, BuildTranslationID, LastSupplied;
  }

  /** The variant is filed under its language; a supplied one keeps the title and content supplied last. */
  ghost predicate IsTotal(s: Settings, docs: seq<Document>, id: string, lang: string, v: Document) {
    var last := LastSupplied(s, docs, lang);
    && v.id == id && v.language == lang && v.metadata.status == "ready"
    && v.translationID == BuildTranslationID(id, lang, s.known)
    && (last >= 0 ==> v.title == docs[last].title && v.content == docs[last].content)
  }

  lemma SourceKeepsID(s: Settings, docs: seq<Document>, id: string)
    requires docs != [] && s.supported != [] && SameID(docs, id)
    ensures Source(s, docs).Some? && Source(s, docs).value.id == id
  {
    SourceIsAlwaysFound(s, docs);
    ByLanguageKeepsID(s, docs, id);
    hide Source, ByLanguage, SameID, BuildTranslationID;
  }

  lemma VariantIsTotal(s: Settings, t: Translator, docs: seq<Document>, source: Document, state: DocumentState,
                       id: string, lang: string)
    requires IsCode(lang) && SameID(docs, id) && source.id == id
    requires Variant(s, t, ByLanguage(s, docs), source, state, lang).Success?
    ensures IsTotal(s, docs, id, lang, Variant(s, t, ByLanguage(s, docs), source, state, lang).value)
  {
    hide ByLanguage, Variant, LastSupplied, BuildTranslationID, SameID, Resolve, IsCode;
    ByLanguageKeepsID(s, docs, id);
    VariantShape(s, t, ByLanguage(s, docs), source, state, lang);
    ByLanguageHoldsLast(s, docs, lang);
    if lang in ByLanguage(s, docs) {
      ResolveKeepsText(s, docs, lang);
    }
  }

  /** A completed document has exactly one variant per supported language, in the order of the list, each
      filed under its own language; a supplied language keeps the title and content supplied last. */
  lemma CompletionIsTotal(s: Settings, t: Translator, docs: seq<Document>, state: DocumentState, id: string)
    requires Configured(s) && docs != [] && s.supported != [] && SameID(docs, id)
    requires Completion(s, t, docs, state).Success?
    ensures |Completion(s, t, docs, state).value| == |s.supported|
    ensures forall i | 0 <= i < |s.supported| ::
              IsTotal(s, docs, id, s.supported[i], Completion(s, t, docs, state).value[i])
  {
    hide ByLanguage, Source, Variant, LastSupplied, BuildTranslationID, Configured, SameID, IsCode;
    SourceKeepsID(s, docs, id);
    var byLang, source := ByLanguage(s, docs), Source(s, docs).value;
    CollectIsPointwise(VariantOf(s, t, byLang, source, state), s.supported);
    forall i | 0 <= i < |s.supported|
      ensures IsTotal(s, docs, id, s.supported[i], Completion(s, t, docs, state).value[i])
    {
      ConfiguredCode(s, i);
      VariantIsTotal(s, t, docs, source, state, id, s.supported[i]);
    }
  }

  lemma CompletionCarriesHashes(s: Settings, t: Translator, docs: seq<Document>, state: DocumentState)
    requires docs != [] && s.supported != [] && Completion(s, t, docs, state).Success?
    ensures forall i | 0 <= i < |Completion(s, t, docs, state).value| ::
      var v := Completion(s, t, docs, state).value[i];
      ContentHash(s.hash, v) != "" ==> v.metadata.contentHash == ContentHash(s.hash, v)
  {
    SourceIsAlwaysFound(s, docs);
    var byLang, source := ByLanguage(s, docs), Source(s, docs).value;
    CollectIsPointwise(VariantOf(s, t, byLang, source, state), s.supported);
    forall i | 0 <= i < |s.supported|
      ensures
        var v := Completion(s, t, docs, state).value[i];
        ContentHash(s.hash, v) != "" ==> v.metadata.contentHash == ContentHash(s.hash, v)
    {
      VariantCarriesHash(s, t, byLang, source, state, s.supported[i]);
    }
    hide ContentHash;
  }

  ghost predicate DistinctTranslationIDs(docs: seq<Document>) {
    forall i, j | 0 <= i < j < |docs| :: docs[i].translationID != docs[j].translationID
  }

  /** The process files the language under French: it is French, or the process does not know it. */
  predicate IsFrench(lang: string, known: seq<string>) {
    lang == "fr" || lang !in known
  }

  /** The variants get distinct translation ids exactly when no two supported languages are filed under
      French, which is where a language goes that the process does not know. */
  lemma TranslationIDsAreDistinctIff(s: Settings, t: Translator, docs: seq<Document>, state: DocumentState, id: string)
    requires Configured(s) && docs != [] && s.supported != [] && SameID(docs, id)
    requires Completion(s, t, docs, state).Success?
    ensures DistinctTranslationIDs(Completion(s, t, docs, state).value)
       <==> (forall i, j | 0 <= i < j < |s.supported| ::
               !(IsFrench(s.supported[i], s.known) && IsFrench(s.supported[j], s.known)))
  {
    hide Completion, LastSupplied, Configured, IsFrench, BuildTranslationID, SameID, IsCode;
    CompletionIsTotal(s, t, docs, state, id);
    var out := Completion(s, t, docs, state).value;
    forall i, j | 0 <= i < j < |out|
      ensures out[i].translationID == out[j].translationID
         <==> IsFrench(s.supported[i], s.known) && IsFrench(s.supported[j], s.known)
    {
      ConfiguredPair(s, i, j);
      IDsOfTwoLanguages(id, s.supported[i], s.supported[j], s.known);
    }
  }

  lemma ConfiguredPair(s: Settings, i: nat, j: nat)
    requires Configured(s) && i < j < |s.supported|
    ensures IsCode(s.supported[i]) && IsCode(s.supported[j]) && s.supported[i] != s.supported[j]
  {
  }

  lemma IDsOfTwoLanguages(id: string, l1: string, l2: string, known: seq<string>)
    requires IsCode(l1) && IsCode(l2) && l1 != l2
    ensures BuildTranslationID(id, l1, known) == BuildTranslationID(id, l2, known)
       <==> IsFrench(l1, known) && IsFrench(l2, known)
  {
    CodesAreTrimmed(l1);
    CodesAreTrimmed(l2);
    TranslationIDsCollideIff(id, l1, l2, known);
    hide BuildTranslationID, Normalize;
  }

  /** A service that can translate nothing. */
  ghost predicate Disabled(t: Translator) {
    forall text, from, to, lab :: t.translate(text, from, to, lab).Failure?
  }

  lemma TranslatedWithoutService(s: Settings, t: Translator, source: Document, lang: string)
    requires Disabled(t)
    ensures TranslatedVariant(s, t, source, lang).Failure?
  {
    hide WithIndexMetadata, TranslationSourceHash, BuildTranslationID, NormalizeWhitespace;
  }

  lemma VariantWithoutService(s: Settings, t: Translator, byLang: map<string, Document>, source: Document,
                              state: DocumentState, lang: string)
    requires Disabled(t)
    ensures Variant(s, t, byLang, source, state, lang).Success? <==> lang in byLang || Reusable(s, source, lang, state)
  {
    TranslatedWithoutService(s, t, source, lang);
    hide TranslatedVariant, ReusedVariant, SuppliedVariant, WithIndexMetadata, Reusable;
  }

  /** Nothing but a missing language whose stored row is stale or unusable needs the service: with the
      service down, completion succeeds exactly when every language is supplied or reusable, and a row is
      reusable only for the hash of the current source. */
  lemma CompletionWithoutServiceIff(s: Settings, t: Translator, docs: seq<Document>, state: DocumentState)
    requires docs != [] && s.supported != [] && Disabled(t)
    ensures Source(s, docs).Some?
    ensures Completion(s, t, docs, state).Success?
       <==> forall i | 0 <= i < |s.supported| ::
              s.supported[i] in ByLanguage(s, docs) || Reusable(s, Source(s, docs).value, s.supported[i], state)
  {
    SourceIsAlwaysFound(s, docs);
    var byLang, source := ByLanguage(s, docs), Source(s, docs).value;
    CollectIsPointwise(VariantOf(s, t, byLang, source, state), s.supported);
    forall i | 0 <= i < |s.supported|
      ensures VariantOf(s, t, byLang, source, state)(s.supported[i]).Success?
         <==> s.supported[i] in byLang || Reusable(s, source, s.supported[i], state)
    {
      VariantWithoutService(s, t, byLang, source, state, s.supported[i]);
    }
  }
}
