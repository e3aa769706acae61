/** What the fingerprint of a source tells apart (sourceFingerprintForDocument in backend/internal/rag/index_skip.go),
    and what that means for the documents a run skips. */
module Fingerprints {
  import opened Text
  import opened Documents
  import opened Lists
  import opened Chunking
  import opened Translations
  import opened IndexStore
  import opened IndexSkip
  import opened IndexRuns
  import opened Reindexing
  import opened Changes

  // ----- Sources -----

  /** The same system, external id, URI and dates. */
  predicate SameOrigin(a: SourceMetadata, b: SourceMetadata) {
    && TrimSpace(a.sourceSystem) == TrimSpace(b.sourceSystem)
    && TrimSpace(a.externalID) == TrimSpace(b.externalID)
    && TrimSpace(a.sourceURI) == TrimSpace(b.sourceURI)
    && a.issuedAt == b.issuedAt && a.modifiedAt == b.modifiedAt
  }

  predicate IsDated(s: SourceMetadata) {
    s.issuedAt != "" || s.modifiedAt != ""
  }

  /** A source that says anything, without bars. */
  predicate IsPlain(s: SourceMetadata) {
    && Free(TrimSpace(s.sourceSystem), '|') && Free(TrimSpace(s.externalID), '|') && Free(TrimSpace(s.sourceURI), '|')
    && Free(s.issuedAt, '|') && Free(s.modifiedAt, '|')
    && !(TrimSpace(s.sourceSystem) == "" && TrimSpace(s.externalID) == "" && TrimSpace(s.sourceURI) == ""
         && s.issuedAt == "" && s.modifiedAt == "")
  }

  /** Five texts without bars can be read back from their join. */
  lemma FiveReadBack(a: seq<string>, b: seq<string>)
    requires |a| == |b| == 5 && forall i | 0 <= i < 5 :: Free(a[i], '|') && Free(b[i], '|')
    requires a[0] + "|" + a[1] + "|" + a[2] + "|" + a[3] + "|" + a[4]
          == b[0] + "|" + b[1] + "|" + b[2] + "|" + b[3] + "|" + b[4]
    ensures a == b
  {
    SplitAtLast(a[0] + "|" + a[1] + "|" + a[2] + "|" + a[3], b[0] + "|" + b[1] + "|" + b[2] + "|" + b[3], a[4], b[4],
                '|');
    SplitAtLast(a[0] + "|" + a[1] + "|" + a[2], b[0] + "|" + b[1] + "|" + b[2], a[3], b[3], '|');
    SplitAtLast(a[0] + "|" + a[1], b[0] + "|" + b[1], a[2], b[2], '|');
    SplitAtLast(a[0], b[0], a[1], b[1], '|');
  }

  lemma PreimagesTellApart(a: SourceMetadata, b: SourceMetadata)
    requires IsPlain(a) && IsPlain(b)
    ensures FingerprintPreimage(a) == FingerprintPreimage(b) <==> SameOrigin(a, b)
  {
    var v := [TrimSpace(a.sourceSystem), TrimSpace(a.externalID), TrimSpace(a.sourceURI), a.issuedAt, a.modifiedAt];
    var w := [TrimSpace(b.sourceSystem), TrimSpace(b.externalID), TrimSpace(b.sourceURI), b.issuedAt, b.modifiedAt];
    hide TrimSpace;
    if FingerprintPreimage(a) == FingerprintPreimage(b) {
      FiveReadBack(v, w);
      assert v[0] == w[0] && v[1] == w[1] && v[2] == w[2] && v[3] == w[3] && v[4] == w[4];
    }
  }

  lemma HoldsMoreThanBars(s: string, before: string, part: string, after: string)
    requires s == before + part + after && part != "" && Free(part, '|')
    ensures exists i :: 0 <= i < |s| && s[i] != '|'
  {
    assert s[|before|] == part[0];
  }

  lemma PlainSourcesSayMore(s: SourceMetadata)
    requires IsPlain(s)
    ensures var base := FingerprintPreimage(s); exists i :: 0 <= i < |base| && base[i] != '|'
  {
    var sys, ext, uri := TrimSpace(s.sourceSystem), TrimSpace(s.externalID), TrimSpace(s.sourceURI);
    var base := FingerprintPreimage(s);
    hide TrimSpace;
    var rest := "|" + s.issuedAt + "|" + s.modifiedAt;
    if sys != "" {
      HoldsMoreThanBars(base, "", sys, "|" + ext + "|" + uri + rest);
    } else if ext != "" {
      HoldsMoreThanBars(base, sys + "|", ext, "|" + uri + rest);
    } else if uri != "" {
      HoldsMoreThanBars(base, sys + "|" + ext + "|", uri, rest);
    } else if s.issuedAt != "" {
      HoldsMoreThanBars(base, sys + "|" + ext + "|" + uri + "|", s.issuedAt, "|" + s.modifiedAt);
    } else {
      HoldsMoreThanBars(base, sys + "|" + ext + "|" + uri + "|" + s.issuedAt + "|", s.modifiedAt, "");
    }
  }

  lemma FingerprintOfPlain(h: Hash, s: SourceMetadata)
    requires Digest(h) && IsPlain(s)
    ensures SourceFingerprint(h, s) == (h(FingerprintPreimage(s)), if IsDated(s) then HIGH else LOW)
    ensures SourceFingerprint(h, s).0 != ""
  {
    PlainSourcesSayMore(s);
    hide FingerprintPreimage;
  }

  lemma FingerprintsAgreeIff(h: Hash, a: Document, b: Document)
    requires Injective(h) && Digest(h) && IsPlain(a.source) && IsPlain(b.source)
    ensures WithIndexMetadata(h, a).source.fingerprint == WithIndexMetadata(h, b).source.fingerprint
            <==> SameOrigin(a.source, b.source)
    ensures WithIndexMetadata(h, a).source.confidence == if IsDated(a.source) then HIGH else LOW
  {
    FingerprintOfPlain(h, a.source);
    FingerprintOfPlain(h, b.source);
    PreimagesTellApart(a.source, b.source);
    hide FingerprintPreimage, SourceFingerprint, SameOrigin, IsPlain, IsDated, ContentHash;
  }

  /** Preparing records the same fingerprint for two sources without bars exactly when their system, id, URI and both
      dates agree, and a high confidence exactly when there is a date. */
  lemma FingerprintsTellApartIff(h: Hash, a: Document, b: Document)
    requires Injective(h) && Digest(h) && IsPlain(a.source) && IsPlain(b.source)
    ensures WithIndexMetadata(h, a).source.fingerprint == WithIndexMetadata(h, b).source.fingerprint
            <==> SameOrigin(a.source, b.source)
    ensures WithIndexMetadata(h, a).source.confidence == if IsDated(a.source) then "high" else "low"
  {
    hide WithIndexMetadata, SameOrigin, IsPlain, IsDated;
    FingerprintsAgreeIff(h, a, b);
  }

  // ----- The picked source -----

  lemma {:induction false} TrimmedLanguagesHoldLast(docs: seq<Document>, lang: string)
    ensures var byLang := TrimmedLanguages(docs).0;
            var last := LastAt(TrimmedAll(docs), lang);
            && (lang in byLang <==> lang != "" && last >= 0)
            && (lang in byLang ==> byLang[lang] == docs[last])
    decreases |docs|
  {
    hide TrimSpace;
    if docs != [] {
      var n := |docs| - 1;
      TrimmedLanguagesHoldLast(docs[..n], lang);
      assert TrimmedAll(docs)[..n] == TrimmedAll(docs[..n]);
      assert TrimmedAll(docs)[n] == TrimSpace(docs[n].language);
    }
  }

  function TrimmedAll(docs: seq<Document>): (r: seq<string>)
    ensures |r| == |docs|
  {
    seq(|docs|, i requires 0 <= i < |docs| => TrimSpace(docs[i].language))
  }

  /** The last document of a language stands for a group that has it and no language preferred to it: English before
      French, German, Italian and Romansh. */
  lemma PreferredIsPicked(docs: seq<Document>, lang: string, better: set<string>)
    requires docs != [] && LastAt(TrimmedAll(docs), lang) >= 0
    requires || (lang == "en" && better == {})
             || (lang == "fr" && better == {"en"})
             || (lang == "de" && better == {"en", "fr"})
             || (lang == "it" && better == {"en", "fr", "de"})
             || (lang == "rm" && better == {"en", "fr", "de", "it"})
    requires forall l | l in better :: l !in TrimmedAll(docs)
    ensures PickSourceFromDocs(docs) == docs[LastAt(TrimmedAll(docs), lang)]
  {
    hide TrimSpace, TrimmedAll, LastAt, TrimmedLanguages;
    var (byLang, langs) := TrimmedLanguages(docs);
    forall l | l in better
      ensures l !in byLang
    {
      TrimmedLanguagesHoldLast(docs, l);
      assert LastAt(TrimmedAll(docs), l) < 0;
    }
    TrimmedLanguagesHoldLast(docs, lang);
    PreferredOrder(byLang, langs);
  }

  /** The first position whose language is not blank, or the length. */
  function FirstNamed(docs: seq<Document>): (i: nat)
    ensures i <= |docs| && (i < |docs| ==> TrimSpace(docs[i].language) != "")
    ensures forall j | 0 <= j < i :: TrimSpace(docs[j].language) == ""
  {
    if docs == [] then 0
    else
      var n := |docs| - 1;
      var i := FirstNamed(docs[..n]);
      if i < n then i else if TrimSpace(docs[n].language) != "" then n else |docs|
  }

  lemma {:induction false} FirstLanguageComesFirst(docs: seq<Document>)
    ensures var langs, i := TrimmedLanguages(docs).1, FirstNamed(docs);
            if i == |docs| then langs == [] && TrimmedLanguages(docs).0 == map[]
            else langs != [] && langs[0] == TrimSpace(docs[i].language)
    decreases |docs|
  {
    hide TrimSpace;
    if docs != [] {
      FirstLanguageComesFirst(docs[..|docs| - 1]);
    }
  }

  lemma AbsentIsAbsent(docs: seq<Document>, lang: string)
    requires lang !in TrimmedAll(docs)
    ensures lang !in TrimmedLanguages(docs).0
  {
    hide TrimSpace, TrimmedAll, TrimmedLanguages;
    TrimmedLanguagesHoldLast(docs, lang);
    assert LastAt(TrimmedAll(docs), lang) < 0;
  }

  /** Without a document in any of these languages, the last document of the first language that is not blank stands for
      the group, and the first document if all languages are blank. */
  lemma OtherwiseFirstIsPicked(docs: seq<Document>)
    requires docs != [] && "en" !in TrimmedAll(docs) && "fr" !in TrimmedAll(docs) && "de" !in TrimmedAll(docs)
    requires "it" !in TrimmedAll(docs) && "rm" !in TrimmedAll(docs)
    ensures FirstNamed(docs) == |docs| ==> PickSourceFromDocs(docs) == docs[0]
    ensures FirstNamed(docs) < |docs| ==>
              var last := LastAt(TrimmedAll(docs), TrimSpace(docs[FirstNamed(docs)].language));
              last >= 0 && PickSourceFromDocs(docs) == docs[last]
  {
    hide TrimSpace, TrimmedAll, LastAt, TrimmedLanguages, PickSource;
    AbsentIsAbsent(docs, "en");
    AbsentIsAbsent(docs, "fr");
    AbsentIsAbsent(docs, "de");
    AbsentIsAbsent(docs, "it");
    AbsentIsAbsent(docs, "rm");
    FirstLanguageComesFirst(docs);
    PreferredOrder(TrimmedLanguages(docs).0, TrimmedLanguages(docs).1);
    PicksFirst(docs);
  }

  lemma PicksFirst(docs: seq<Document>)
    requires docs != []
    requires var (byLang, langs) := TrimmedLanguages(docs); PickSource(byLang, langs) == FirstPresent(byLang, langs)
    ensures FirstNamed(docs) == |docs| ==> PickSourceFromDocs(docs) == docs[0]
    ensures FirstNamed(docs) < |docs| ==>
              var last := LastAt(TrimmedAll(docs), TrimSpace(docs[FirstNamed(docs)].language));
              last >= 0 && PickSourceFromDocs(docs) == docs[last]
  {
    hide TrimSpace, TrimmedAll, LastAt, TrimmedLanguages, PickSource;
    FirstLanguageComesFirst(docs);
    var i := FirstNamed(docs);
    if i < |docs| {
      NamedIsListed(docs, i);
      TrimmedLanguagesHoldLast(docs, TrimSpace(docs[i].language));
    }
  }

  lemma NamedIsListed(docs: seq<Document>, i: nat)
    requires i < |docs|
    ensures LastAt(TrimmedAll(docs), TrimSpace(docs[i].language)) >= 0
  {
    hide TrimSpace;
    assert TrimmedAll(docs)[i] == TrimSpace(docs[i].language);
  }

  // ----- What is skipped -----

  ghost predicate AllPlain(docs: seq<Document>) {
    forall i | 0 <= i < |docs| :: IsPlain(docs[i].source)
  }

  lemma PreparedFingerprint(h: Hash, d: Document)
    requires Digest(h) && IsPlain(d.source)
    ensures var s := WithIndexMetadata(h, d).source;
            (s.fingerprint, s.confidence) == SourceFingerprint(h, d.source) && TrimSpace(s.fingerprint) != ""
  {
    FingerprintOfPlain(h, d.source);
    TrimSpaceFixedPoints(h(FingerprintPreimage(d.source)));
    hide TrimSpace, FingerprintPreimage, IsPlain, ContentHash, IsDated, SourceFingerprint;
  }

  lemma OriginTellsDates(a: SourceMetadata, b: SourceMetadata)
    requires SameOrigin(a, b)
    ensures IsDated(a) <==> IsDated(b)
  {
    hide TrimSpace;
  }

  lemma ConfidencesAreTrimmed()
    ensures TrimSpace(HIGH) == HIGH && TrimSpace(LOW) == LOW && HIGH != LOW
  {
    TrimSpaceFixedPoints(HIGH);
    TrimSpaceFixedPoints(LOW);
  }

  /** The stored source is recognised exactly when it is dated and of the same origin. */
  lemma SourceKeptIff(h: Hash, variants: seq<Document>, writer: Document, next: seq<Document>)
    requires Injective(h) && Digest(h) && variants != [] && next != []
    requires variants[|variants| - 1].source == WithIndexMetadata(h, writer).source
    requires IsPlain(writer.source) && IsPlain(PickSourceFromDocs(next).source)
    ensures SourceKept(h, variants, next)
            <==> IsDated(writer.source) && SameOrigin(PickSourceFromDocs(next).source, writer.source)
  {
    hide TrimSpace, FingerprintPreimage, IsPlain, PickSourceFromDocs, ContentHash, SameOrigin, IsDated, Injective,
         WithIndexMetadata, SourceFingerprint;
    var picked := PickSourceFromDocs(next);
    FingerprintsAgreeIff(h, picked, writer);
    if SameOrigin(picked.source, writer.source) {
      OriginTellsDates(picked.source, writer.source);
    }
    FingerprintOfPlain(h, writer.source);
    FingerprintOfPlain(h, picked.source);
    PreparedFingerprint(h, writer);
    PreparedFingerprint(h, picked);
    ConfidencesAreTrimmed();
  }

  lemma PickedIsPlain(docs: seq<Document>)
    requires docs != [] && AllPlain(docs)
    ensures IsPlain(PickSourceFromDocs(docs).source)
  {
    hide IsPlain, PickSourceFromDocs;
    PickedIsOneOf(docs);
    var i :| 0 <= i < |docs| && docs[i] == PickSourceFromDocs(docs);
  }

  /** After a committed run, documents with plain sources and without ambiguous bars are skipped exactly when they make
      as many chunks as are stored and either all their texts are unchanged, or the source that stands for them is
      dated and has the system, id, URI and dates of the source written last: that of the last document supplied in
      the last supported language if there is any. So a new date, URI or id shows every change of a text. */
  lemma SkippedSameOriginIff(x: Indexer, docs: seq<Document>, state: DocumentState, db: Database, id: string,
                             next: seq<Document>) returns (j: nat)
    requires FirstRun(x, docs, state, id) && Digest(x.s.hash) && Injective(x.s.hash) && TrimSpace(id) == id
    requires AllHaveText(VariantsOf(x, docs, state)) && InSupported(x.s, next) && AllUnambiguous(next)
    requires AllPlain(docs) && AllPlain(next)
    ensures |x.s.supported| > 0 && j < |docs|
    ensures var last := LastSupplied(x.s, docs, x.s.supported[|x.s.supported| - 1]);
            last >= 0 ==> j == last
    ensures SkipsNext(x, docs, state, db, id, next)
            <==> ExpectedForGroup(next, x.cfg) == |Items(x, docs, state).value| && next != []
                 && (Unchanged(VariantsOf(x, docs, state), next)
                     || (IsDated(docs[j].source) && SameOrigin(PickSourceFromDocs(next).source, docs[j].source)))
  {
    hide FirstRun, VariantsOf, Items, Committed, StateOf, ShouldSkip, RequiredLanguages, ExpectedForGroup, SourceKept,
         Unchanged, AllHaveText, AllUnambiguous, InSupported, Digest, Injective, TrimSpace, SkipsNext, Coherent,
         Configured, SameID, Completion, SizeOf, StepOf, IsPlain, WithIndexMetadata, LastSupplied, SameOrigin, IsDated;
    FirstRunFacts(x, docs, state, id);
    var variants := VariantsOf(x, docs, state);
    j := SourceOfVariant(x, docs, state, id, |variants| - 1);
    SkippedUnchangedIff(x, docs, state, db, id, next);
    if next == [] {
      SomeItems(x, docs, state, id);
      NothingExpected(x.cfg);
    } else {
      PickedIsPlain(next);
      assert IsPlain(docs[j].source);
      SourceKeptIff(x.s.hash, variants, docs[j], next);
    }
  }

  lemma SomeItems(x: Indexer, docs: seq<Document>, state: DocumentState, id: string)
    requires FirstRun(x, docs, state, id)
    ensures Items(x, docs, state).value != []
  {
    hide FirstRun, VariantsOf, Items, ChunksOfAll, SizeOf, StepOf;
    FirstRunItems(x, docs, state, id);
  }

  lemma NothingExpected(cfg: ChunkConfig)
    ensures ExpectedForGroup([], cfg) == 0
  {
  }
}
