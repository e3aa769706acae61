/** Answering questions through the cache (backend/internal/services/qa_service.go). */
module QAService {
  import opened Text
  import opened Documents
  import opened Lists
  import opened CacheKeys
  import opened KeyReadings
  import opened Similarity
  import opened EntryLog
  import opened QACache

  datatype Hit = Hit(documentID: string, title: string, uri: string, sourceType: string, score: real)

  /** The embedder, the vector store and the summarizer at one moment; None is an error. */
  datatype Backend = Backend(
    embed: string -> Option<seq<real>>,
    search: (seq<real>, int) -> Option<seq<Hit>>,
    explain: (string, seq<Hit>, string) -> Option<string>)

  datatype Input = Input(question: string, language: string, votationID: string, objectID: string, canton: string)

  /** What a service is built from: redact hides e-mail addresses and phone numbers, noSource is the answer
      without sources in a language. */
  datatype Setup = Setup(
    topK: int, ragMode: string, embedderName: string, summarizerName: string,
    redact: string -> string, redacted: string -> bool, noSource: string -> string)

  // ----- Answers without a cache -----

  function SanitizeQuestion(s: Setup, question: string): string {
    var trimmed := TrimSpace(question);
    TrimSpace(s.redact(if |trimmed| > 1200 then trimmed[..1200] else trimmed))
  }

  function ServiceLanguage(lang: string): (r: string)
    ensures IsCode(r)
  {
    if Normalize(lang) == "" then "fr" else Normalize(lang)
  }

  function NonEmpty(value: string): string {
    if TrimSpace(value) == "" then "unknown" else TrimSpace(value)
  }

  predicate IsCacheable(s: Setup, question: string) {
    TrimSpace(question) != "" && !s.redacted(TrimSpace(question))
  }

  function ContextOf(s: Setup, input: Input): CacheContext {
    CacheContext(ServiceLanguage(input.language), TrimSpace(input.votationID), TrimSpace(input.objectID),
                 TrimSpace(input.canton),
                 NonEmpty(s.ragMode), NonEmpty(s.embedderName), NonEmpty(s.summarizerName), s.topK)
  }

  function CitationKey(c: Citation): string {
    c.url + "|" + c.title
  }

  function Deduped(items: seq<Citation>): seq<Citation> {
    DedupBy(items, CitationKey)
  }

  method DedupeCitations(items: seq<Citation>) returns (out: seq<Citation>)
    ensures out == Deduped(items)
  {
    hide CitationKey;
    out := [];
    var seen: set<string> := {};
    for i := 0 to |items|
      invariant out == DedupBy(items[..i], CitationKey)
      invariant forall k :: k in seen <==> exists j :: 0 <= j < |out| && CitationKey(out[j]) == k
    {
      assert items[..i + 1][..i] == items[..i];
      var key := CitationKey(items[i]);
      if key in seen {
        continue;
      }
      seen := seen + {key};
      ghost var before := out;
      out := out + [items[i]];
      forall k
        ensures k in seen <==> exists j :: 0 <= j < |out| && CitationKey(out[j]) == k
      {
        if j :| 0 <= j < |before| && CitationKey(before[j]) == k {
          assert out[j] == before[j];
        }
        assert out[|before|] == items[i];
      }
    }
    assert items[..|items|] == items;
  }

  /** Every cited page stays listed, and no page twice. */
  lemma CitationsAreListedOnce(items: seq<Citation>)
    ensures Covered(items, Deduped(items), CitationKey)
    ensures DistinctBy(Deduped(items), CitationKey)
  {
    DedupKeepsEachKeyOnce(items, CitationKey);
  }

  function InsertSorted(x: string, s: seq<string>): seq<string> {
    if s == [] then [x]
    else if x == s[0] then s
    else if Less(x, s[0]) then [x] + s
    else [s[0]] + InsertSorted(x, s[1..])
  }

  /** The ids of the used documents, sorted and without repetition. */
  function UsedDocuments(hits: seq<Hit>): seq<string> {
    if hits == [] then []
    else if hits[0].documentID == "" then UsedDocuments(hits[1..])
    else InsertSorted(hits[0].documentID, UsedDocuments(hits[1..]))
  }

  function SumScores(hits: seq<Hit>): real {
    if hits == [] then 0.0 else SumScores(hits[..|hits| - 1]) + hits[|hits| - 1].score
  }

  function Confidence(hits: seq<Hit>): real {
    if hits == [] then 0.0
    else
      var mean := SumScores(hits) / |hits| as real;
      var clamped := if mean < 0.0 then 0.0 else if mean > 1.0 then 1.0 else mean;
      (clamped * 100.0 + 0.5).Floor as real / 100.0
  }

  method ComputeConfidence(hits: seq<Hit>) returns (c: real)
    ensures c == Confidence(hits)
  {
    if hits == [] {
      return 0.0;
    }
    var sum := 0.0;
    for i := 0 to |hits|
      invariant sum == SumScores(hits[..i])
    {
      assert hits[..i + 1][..i] == hits[..i];
      sum := sum + hits[i].score;
    }
    assert hits[..|hits|] == hits;
    var score := sum / |hits| as real;
    if score < 0.0 {
      score := 0.0;
    }
    if score > 1.0 {
      score := 1.0;
    }
    return (score * 100.0 + 0.5).Floor as real / 100.0;
  }

  function CitationsOf(hits: seq<Hit>): seq<Citation> {
    seq(|hits|, i requires 0 <= i < |hits| => Citation(hits[i].sourceType, hits[i].uri, hits[i].title))
  }

  function Answer(s: Setup, b: Backend, question: string, lang: string, hits: seq<Hit>): Option<Output> {
    if hits == [] then Some(Output(s.noSource(lang), lang, [], 0.0, []))
    else
      var text := b.explain(question, hits, lang);
      if text.None? then None
      else Some(Output(text.value, lang, Deduped(CitationsOf(hits)), Confidence(hits), UsedDocuments(hits)))
  }

  function QueryRAG(s: Setup, b: Backend, question: string): Option<seq<Hit>> {
    if TrimSpace(question) == "" then None
    else
      var v := b.embed(TrimSpace(question));
      if v.None? then None else Search(s, b, v.value)
  }

  function Search(s: Setup, b: Backend, vector: seq<real>): Option<seq<Hit>> {
    if vector == [] then None else b.search(vector, s.topK)
  }

  /** The answer of a service without a cache to a sanitised question. */
  function Uncached(s: Setup, b: Backend, question: string, lang: string): Option<Output> {
    var hits := QueryRAG(s, b, question);
    if hits.None? then None else Answer(s, b, question, lang, hits.value)
  }

  // ----- The service -----

  /** An answer that was computed and stored: for which question and context, when, and by which backend. */
  datatype Computation = Computation(question: string, ctx: CacheContext, at: int, backend: Backend, output: Output)

  /** The log entries are the computations, in order, under the keys of their questions and contexts. */
  ghost predicate ExactlyLogged(s: Setup, h: Hash, log: Log, history: seq<Computation>) {
    && |log| == |history|
    && forall i | 0 <= i < |log| ::
         && log[i].key == ExactKey(h, history[i].question, history[i].ctx)
         && log[i].at == history[i].at && log[i].value.output == history[i].output
         && TrimSpace(history[i].question) == history[i].question
         && Uncached(s, history[i].backend, history[i].question, history[i].ctx.language) == Some(history[i].output)
  }

  ghost predicate SemanticallyLogged(s: Setup, h: Hash, log: Log, history: seq<Computation>) {
    && |log| == |history|
    && forall i | 0 <= i < |log| ::
         && log[i].value.contextHash == ContextHash(h, history[i].ctx)
         && log[i].at == history[i].at && log[i].value.output == history[i].output
         && Uncached(s, history[i].backend, history[i].question, history[i].ctx.language) == Some(history[i].output)
  }

  /** How the service has dealt with cacheable questions so far. */
  datatype Tally = Tally(cacheable: int, embedFailures: int, semanticAttempts: int)

  /** What became of a lookup. */
  datatype Lookup = ExactHit | SemanticHit(score: real) | Miss | EmbedFailure

  /** Every cacheable question is an exact hit, a semantic hit, a miss or an embedding failure; every exact
      miss finds the semantic cache off, the question too short, or tries it. */
  ghost predicate Balanced(t: Tally, m: Metrics) {
    && t.cacheable == m.exactHits + m.semanticHits + m.misses + t.embedFailures
    && t.cacheable - m.exactHits == m.bypassSemanticDisabled + m.bypassTooShort + t.semanticAttempts
    && m.savedTotal == m.savedInput + m.savedOutput
    && 0 <= m.exactHits && 0 <= m.semanticHits && 0 <= m.misses && 0 <= t.embedFailures
    && 0 <= m.bypassSemanticDisabled && 0 <= m.bypassTooShort && 0 <= t.semanticAttempts
    && 0 <= m.savedInput && 0 <= m.savedOutput
  }

  function OneIf(b: bool): int { if b then 1 else 0 }

  /** What one cacheable query adds to each counter: one of the four outcomes, one of the three ways past an
      exact miss, and the tokens a hit saved. */
  ghost predicate Accounted(t: Tally, m: Metrics, t': Tally, m': Metrics, enabled: bool, longEnough: bool, how: Lookup,
                            question: string, r: Option<Output>)
  {
    && t'.cacheable == t.cacheable + 1
    && m'.exactHits == m.exactHits + OneIf(how.ExactHit?)
    && m'.semanticHits == m.semanticHits + OneIf(how.SemanticHit?)
    && m'.misses == m.misses + OneIf(how.Miss?)
    && t'.embedFailures == t.embedFailures + OneIf(how.EmbedFailure?)
    && m'.bypassSemanticDisabled == m.bypassSemanticDisabled + OneIf(!how.ExactHit? && !enabled)
    && m'.bypassTooShort == m.bypassTooShort + OneIf(!how.ExactHit? && enabled && !longEnough)
    && t'.semanticAttempts == t.semanticAttempts + OneIf(!how.ExactHit? && enabled && longEnough)
    && m'.bypassSensitive == m.bypassSensitive
    && m'.scoreCount == m.scoreCount + OneIf(how.SemanticHit?)
    && m'.scoreSum == m.scoreSum + (if how.SemanticHit? then how.score else 0.0)
    && (how.ExactHit? || how.SemanticHit? ==> r.Some?)
    && var hit := how.ExactHit? || how.SemanticHit?;
       && m'.savedInput == m.savedInput + (if hit then EstimateTokens(|TrimSpace(question)|) else 0)
       && m'.savedOutput == m.savedOutput + (if hit then EstimateTokens(|TrimSpace(r.value.answer)|) else 0)
       && m'.savedTotal - m.savedTotal == m'.savedInput - m.savedInput + (m'.savedOutput - m.savedOutput)
  }

  lemma AccountedKeepsBalance(t: Tally, m: Metrics, t': Tally, m': Metrics, enabled: bool, longEnough: bool,
                              how: Lookup,
                              question: string, r: Option<Output>)
    requires Balanced(t, m) && Accounted(t, m, t', m', enabled, longEnough, how, question, r)
    ensures Balanced(t', m')
  {
    hide TrimSpace;
  }

  lemma SensitiveKeepsBalance(t: Tally, m: Metrics)
    requires Balanced(t, m)
    ensures Balanced(t, m.(bypassSensitive := m.bypassSensitive + 1))
  {
  }

  lemma ExactHitIsAccounted(t: Tally, m: Metrics, enabled: bool, longEnough: bool, question: string, output: Output)
    ensures Accounted(t, m, t.(cacheable := t.cacheable + 1), Saved(m.(exactHits := m.exactHits + 1), question, output),
                      enabled, longEnough, ExactHit, question, Some(output))
  {
    hide TrimSpace;
  }

  lemma SemanticHitIsAccounted(t: Tally, m: Metrics, score: real, question: string, output: Output)
    ensures Accounted(t, m, t.(cacheable := t.cacheable + 1, semanticAttempts := t.semanticAttempts + 1),
                      SemanticHitNoted(m, score, question, output), true, true, SemanticHit(score), question,
                      Some(output))
  {
    hide TrimSpace;
  }

  lemma FailureIsAccounted(t: Tally, m: Metrics, question: string)
    ensures Accounted(t, m, Tally(t.cacheable + 1, t.embedFailures + 1, t.semanticAttempts + 1), m, true, true,
                      EmbedFailure, question, None)
  {
    hide TrimSpace;
  }

  lemma MissIsAccounted(t: Tally, m: Metrics, enabled: bool, longEnough: bool, question: string, r: Option<Output>)
    ensures var m1 := if !enabled then m.(bypassSemanticDisabled := m.bypassSemanticDisabled + 1)
                      else if !longEnough then m.(bypassTooShort := m.bypassTooShort + 1) else m;
            Accounted(t, m, t.(cacheable := t.cacheable + 1,
                               semanticAttempts := t.semanticAttempts + OneIf(enabled && longEnough)),
                      m1.(misses := m1.misses + 1), enabled, longEnough, Miss, question, r)
  {
    hide TrimSpace;
  }

  lemma SanitizedIsTrimmed(s: Setup, question: string)
    ensures TrimSpace(SanitizeQuestion(s, question)) == SanitizeQuestion(s, question)
  {
    var trimmed := TrimSpace(question);
    TrimSpaceFixedPoints(s.redact(if |trimmed| > 1200 then trimmed[..1200] else trimmed));
    hide TrimSpace;
  }

  lemma EmbeddingFailureIsUncached(s: Setup, b: Backend, question: string, lang: string)
    requires TrimSpace(question) == question && question != "" && b.embed(question).None?
    ensures Uncached(s, b, question, lang).None?
  {
    hide TrimSpace, Answer;
  }

  lemma NothingSimilar(sqrt: real -> real, vector: seq<real>, threshold: real, log: Log, now: int, limits: Limits,
                       contextHash: string, score: real)
    requires IsSquareRoot(sqrt) && IsBestAnswer(sqrt, vector, threshold, log, now, limits, contextHash, None, score)
    ensures IsBestAnswer(sqrt, vector, threshold, log, now, limits, contextHash, None, -1.0)
  {
  }

  class Service {
    const setup: Setup
    const cache: Cache?

    /** One computation per entry of the cache's logs. */
    ghost var exactHistory: seq<Computation>
    ghost var semanticHistory: seq<Computation>
    ghost var tally: Tally

    ghost predicate Valid()
      reads this, cache
    {
      cache != null ==>
        && cache.Valid() && Logged()
        && Balanced(tally, cache.metrics)
    }

    ghost predicate Logged()
      requires cache != null
      reads this, cache
    {
      && ExactlyLogged(setup, cache.hash, cache.exactLog, exactHistory)
      && SemanticallyLogged(setup, cache.hash, cache.semanticLog, semanticHistory)
    }

    constructor (setup: Setup, cache: Cache?)
      requires cache != null ==>
                 && cache.Valid() && cache.exactLog == [] && cache.semanticLog == []
                 && cache.metrics == NO_METRICS
      ensures Valid() && this.setup == setup && this.cache == cache
      ensures exactHistory == [] && semanticHistory == [] && tally == Tally(0, 0, 0)
    {
      this.setup, this.cache := setup, cache;
      exactHistory, semanticHistory, tally := [], [], Tally(0, 0, 0);
    }

    /** Answers from the exact entries: the answer was computed by a service without a cache, for an equal key. */
    method TryExact(question: string, ctx: CacheContext, now: int) returns (out: Option<Output>)
      requires cache != null && cache.Valid() && Logged() && cache.clock <= now
      modifies cache`exactEntries, cache`semanticEntries, cache`clock, cache`metrics
      ensures cache.Valid() && cache.clock == now
      ensures out.Some? <==> Alive(cache.exactLog, ExactKey(cache.hash, question, ctx), now, cache.ExactLimits())
      ensures out.Some? ==> ExactSource(setup, cache.hash, exactHistory, question, ctx, now, cache.cfg.exactTTL,
                                        out.value)
      ensures cache.metrics == if out.None? then old(cache.metrics)
                               else Saved(old(cache.metrics).(exactHits := old(cache.metrics).exactHits + 1), question,
                                          out.value)
    {
      hide ExactKey, Tracks, Increasing, TrimSpace, Saved;
      out := cache.GetExact(question, ctx, now);
      if out.Some? {
        ghost var i := LastSet(cache.exactLog, ExactKey(cache.hash, question, ctx));
        assert exactHistory[i].output == out.value;
      }
    }

    /** Tries the semantic entries. Either the answer was Set under the same context, or nothing was found or
        embedded and the query goes on. */
    method TrySemantic(question: string, ctx: CacheContext, b: Backend, now: int)
      returns (out: Option<Output>, vector: seq<real>, failed: bool, ghost score: real)
      requires cache != null && cache.Valid() && cache.clock <= now && cache.cfg.semanticEnabled
      requires cache.LongEnough(question)
      requires SemanticallyLogged(setup, cache.hash, cache.semanticLog, semanticHistory)
      modifies cache`exactEntries, cache`semanticEntries, cache`clock, cache`metrics
      ensures cache.Valid() && old(cache.clock) <= cache.clock <= now
      ensures failed <==> b.embed(question).None?
      ensures if failed then out.None? else b.embed(question) == Some(vector)
      ensures out.Some? ==> vector != []
      ensures out.Some? ==> SemanticSource(setup, cache.hash, semanticHistory, ctx, now, cache.cfg.semanticTTL,
                                           out.value)
      ensures !failed && vector != [] ==>
                IsBestAnswer(cache.sqrt, vector, cache.cfg.threshold, cache.semanticLog, now, cache.SemanticLimits(),
                             ContextHash(cache.hash, ctx), out, score)
      ensures cache.metrics == if out.None? then old(cache.metrics)
                               else SemanticHitNoted(old(cache.metrics), score, question, out.value)
    {
      hide Tracks, Increasing, TrimSpace, ContextHash, SemanticHitNoted, Score;
      score := 0.0;
      var v := b.embed(question);
      if v.None? {
        return None, [], true, score;
      }
      vector, failed := v.value, false;
      var s;
      out, s := cache.GetSemantic(vector, question, ctx, now);
      score := s;
      if out.Some? {
        ghost var k :| Candidate(cache.semanticLog, k, now, cache.SemanticLimits(), ContextHash(cache.hash, ctx))
                       && out.value == cache.semanticLog[LastSet(cache.semanticLog, k)].value.output;
        assert semanticHistory[LastSet(cache.semanticLog, k)].output == out.value;
      }
    }

    method ComputeAnswer(question: string, vector: seq<real>, lang: string, b: Backend) returns (out: Option<Output>)
      requires TrimSpace(question) == question
      requires vector != [] ==> question != "" && b.embed(question) == Some(vector)
      ensures out == Uncached(setup, b, question, lang)
    {
      var hits;
      if vector != [] {
        hits := b.search(vector, setup.topK);
      } else {
        hits := QueryRAG(setup, b, question);
      }
      if hits.None? {
        return None;
      }
      if hits.value == [] {
        return Some(Output(setup.noSource(lang), lang, [], 0.0, []));
      }
      out := Explain(b, question, lang, hits.value);
    }

    /** The answer to a question with hits, and what it is based on. */
    method Explain(b: Backend, question: string, lang: string, hits: seq<Hit>) returns (out: Option<Output>)
      requires hits != []
      ensures out == Answer(setup, b, question, lang, hits)
    {
      var text := b.explain(question, hits, lang);
      if text.None? {
        return None;
      }
      var citations: seq<Citation> := [];
      for i := 0 to |hits|
        invariant citations == CitationsOf(hits[..i])
      {
        citations := citations + [Citation(hits[i].sourceType, hits[i].uri, hits[i].title)];
        assert CitationsOf(hits[..i + 1]) == citations;
      }
      assert hits[..|hits|] == hits;
      citations := DedupeCitations(citations);
      var confidence := ComputeConfidence(hits);
      return Some(Output(text.value, lang, citations, confidence, UsedDocuments(hits)));
    }

    /** Stores a computed answer. */
    method Store(question: string, vector: seq<real>, ctx: CacheContext, b: Backend, output: Output, now: int)
      requires cache != null && cache.Valid() && Logged() && 0 < now && cache.clock <= now
      requires forall i | 0 <= i < |cache.exactLog| :: cache.exactLog[i].at < now
      requires forall i | 0 <= i < |cache.semanticLog| :: cache.semanticLog[i].at < now
      requires TrimSpace(question) == question && Uncached(setup, b, question, ctx.language) == Some(output)
      modifies this`exactHistory, this`semanticHistory
      modifies cache`exactEntries, cache`semanticEntries, cache`clock, cache`exactLog, cache`semanticLog
      ensures cache.Valid() && Logged() && cache.clock == now
      ensures exactHistory == old(exactHistory) + [Computation(question, ctx, now, b, output)]
      ensures semanticHistory == old(semanticHistory)
                                 + if vector != [] && cache.IsSemanticEnabledForQuestion(question)
                                   then [Computation(question, ctx, now, b, output)] else []
    {
      hide Tracks, Increasing, TrimSpace, ContextHash, ExactKey, SemanticKey, Uncached;
      cache.Set(question, vector, ctx, output, now);
      ghost var c := Computation(question, ctx, now, b, output);
      exactHistory := exactHistory + [c];
      if |cache.semanticLog| > |semanticHistory| {
        semanticHistory := semanticHistory + [c];
      }
    }

    /** One query, with the times at which it looks up the exact entries, the semantic entries, and stores.
        A question that is blank, or sensitive, or meets no cache, leaves the histories and the accounts alone. */
    method Query(input: Input, b: Backend, t1: int, t2: int, t3: int) returns (r: Option<Output>, ghost how: Lookup)
      requires Valid()
      requires cache != null ==> 0 <= cache.clock < t1 <= t2 <= t3
      modifies this, cache
      ensures Valid() && (cache != null ==> old(cache.clock) <= cache.clock <= t3)
      ensures var question, ctx := SanitizeQuestion(setup, input.question), ContextOf(setup, input);
              if TrimSpace(input.question) == "" then
                r.None? && Kept(old(exactHistory), old(semanticHistory), old(tally))
                && (cache != null ==> cache.metrics == old(cache.metrics))
              else if cache == null || question == "" || setup.redacted(question) then
                && r == Uncached(setup, b, question, ctx.language)
                && Kept(old(exactHistory), old(semanticHistory), old(tally))
                && (cache != null ==>
                      cache.metrics == old(cache.metrics).(bypassSensitive := old(cache.metrics).bypassSensitive + 1))
              else
                && LookedUp(cache, old(cache.exactLog), old(cache.semanticLog), question, ctx, b, t1, t2, how, r)
                && CameFrom(setup, cache, old(exactHistory), old(semanticHistory), question, ctx, b, t1, t2, how, r)
                && Accounted(old(tally), old(cache.metrics), tally, cache.metrics,
                             cache.cfg.semanticEnabled, |TrimSpace(question)| >= cache.cfg.minChars, how, question, r)
                && Remembers(old(exactHistory), old(semanticHistory), question, ctx, b, t3, how, r)
    {
      hide Tracks, Increasing, TrimSpace, Uncached, Accounted, LookedUp, CameFrom, Balanced, ExactlyLogged,
           SemanticallyLogged;
      how := Miss;
      if TrimSpace(input.question) == "" {
        return None, how;
      }
      var question := SanitizeQuestion(setup, input.question);
      var ctx := ContextOf(setup, input);
      SanitizedIsTrimmed(setup, input.question);
      hide SanitizeQuestion, ContextOf;
      if cache == null || !IsCacheable(setup, question) {
        if cache != null {
          SensitiveKeepsBalance(tally, cache.metrics);
          cache.RecordBypassSensitiveQuestion();
        }
        r := ComputeAnswer(question, [], ctx.language, b);
      } else {
        r, how := QueryCached(question, ctx, b, t1, t2, t3);
      }
    }

    ghost predicate Kept(exact: seq<Computation>, semantic: seq<Computation>, before: Tally)
      reads this
    {
      exactHistory == exact && semanticHistory == semantic && tally == before
    }

    /** Exactly the answers computed after a miss are remembered, and for the semantic lookup only those whose
        question was embedded for it. */
    ghost predicate Remembers(exact: seq<Computation>, semantic: seq<Computation>, question: string, ctx: CacheContext,
                              b: Backend, at: int, how: Lookup, r: Option<Output>)
      requires cache != null
      reads this
    {
      var added := if how.Miss? && r.Some? then [Computation(question, ctx, at, b, r.value)] else [];
      var v := b.embed(question);
      var attempted := cache.cfg.semanticEnabled && |TrimSpace(question)| >= cache.cfg.minChars;
      var embedded := attempted && v.Some? && v.value != [];
      exactHistory == exact + added && semanticHistory == semantic + if embedded then added else []
    }

    /** The part of a query that concerns a cacheable question. */
    method QueryCached(question: string, ctx: CacheContext, b: Backend, t1: int, t2: int, t3: int)
      returns (r: Option<Output>, ghost how: Lookup)
      requires cache != null && Valid() && 0 <= cache.clock < t1 <= t2 <= t3
      requires TrimSpace(question) == question && question != ""
      modifies this, cache
      ensures Valid() && old(cache.clock) <= cache.clock <= t3
      ensures LookedUp(cache, old(cache.exactLog), old(cache.semanticLog), question, ctx, b, t1, t2, how, r)
      ensures CameFrom(setup, cache, old(exactHistory), old(semanticHistory), question, ctx, b, t1, t2, how, r)
      ensures Accounted(old(tally), old(cache.metrics), tally, cache.metrics,
                        cache.cfg.semanticEnabled, |TrimSpace(question)| >= cache.cfg.minChars, how, question, r)
      ensures Remembers(old(exactHistory), old(semanticHistory), question, ctx, b, t3, how, r)
    {
      hide Tracks, Increasing, TrimSpace, Uncached, Accounted, Balanced, ExactlyLogged, SemanticallyLogged, Saved,
           ExactKey, Alive;
      r := TryExact(question, ctx, t1);
      if r.Some? {
        how := ExactHit;
        tally := tally.(cacheable := tally.cacheable + 1);
        ExactHitIsAccounted(old(tally), old(cache.metrics), cache.cfg.semanticEnabled, cache.LongEnough(question),
                            question, r.value);
      } else {
        r, how := QueryPastExact(question, ctx, b, t2, t3);
      }
      AccountedKeepsBalance(old(tally), old(cache.metrics), tally, cache.metrics,
                            cache.cfg.semanticEnabled, |TrimSpace(question)| >= cache.cfg.minChars, how, question, r);
    }

    /** What follows an exact miss. */
    method QueryPastExact(question: string, ctx: CacheContext, b: Backend, t2: int, t3: int)
      returns (r: Option<Output>, ghost how: Lookup)
      requires cache != null && cache.Valid() && Logged() && 0 < cache.clock <= t2 <= t3
      requires forall i | 0 <= i < |cache.exactLog| :: cache.exactLog[i].at < t3
      requires forall i | 0 <= i < |cache.semanticLog| :: cache.semanticLog[i].at < t3
      requires TrimSpace(question) == question && question != ""
      modifies this, cache
      ensures cache.Valid() && Logged() && old(cache.clock) <= cache.clock <= t3 && !how.ExactHit?
      ensures PastExact(cache, old(cache.semanticLog), question, ctx, b, t2, how, r)
      ensures how.SemanticHit? ==> r.Some? && SemanticSource(setup, cache.hash, old(semanticHistory), ctx, t2,
                                                             cache.cfg.semanticTTL, r.value)
      ensures !how.SemanticHit? ==> r == Uncached(setup, b, question, ctx.language)
      ensures how.EmbedFailure? ==> r.None?
      ensures Accounted(old(tally), old(cache.metrics), tally, cache.metrics,
                        cache.cfg.semanticEnabled, |TrimSpace(question)| >= cache.cfg.minChars, how, question, r)
      ensures Remembers(old(exactHistory), old(semanticHistory), question, ctx, b, t3, how, r)
    {
      hide Tracks, Increasing, TrimSpace, Uncached, Accounted, ExactlyLogged, SemanticallyLogged, SemanticHitNoted,
           SemanticSource, IsBestAnswer,
           ContextHash;
      how := Miss;
      tally := tally.(cacheable := tally.cacheable + 1);
      var vector := [];
      if cache.cfg.semanticEnabled && !cache.IsSemanticEnabledForQuestion(question) {
        cache.RecordBypassQuestionTooShort();
      }
      if !cache.cfg.semanticEnabled {
        cache.RecordBypassSemanticDisabled();
      }
      if cache.IsSemanticEnabledForQuestion(question) {
        tally := tally.(semanticAttempts := tally.semanticAttempts + 1);
        var failed;
        ghost var score;
        r, vector, failed, score := TrySemantic(question, ctx, b, t2);
        if failed {
          EmbeddingFailureIsUncached(setup, b, question, ctx.language);
          tally := tally.(embedFailures := tally.embedFailures + 1);
          FailureIsAccounted(old(tally), old(cache.metrics), question);
          return None, EmbedFailure;
        }
        if r.Some? {
          SemanticHitIsAccounted(old(tally), old(cache.metrics), score, question, r.value);
          return r, SemanticHit(score);
        }
        if vector != [] {
          NothingSimilar(cache.sqrt, vector, cache.cfg.threshold, cache.semanticLog, t2, cache.SemanticLimits(),
                         ContextHash(cache.hash, ctx), score);
        }
      }
      cache.RecordMiss();
      r := ComputeAndStore(question, vector, ctx, b, t3);
      MissIsAccounted(old(tally), old(cache.metrics), cache.cfg.semanticEnabled, cache.LongEnough(question), question,
                      r);
    }

    /** What follows a miss. */
    method ComputeAndStore(question: string, vector: seq<real>, ctx: CacheContext, b: Backend, now: int)
      returns (r: Option<Output>)
      requires cache != null && cache.Valid() && Logged() && 0 < now && cache.clock <= now
      requires forall i | 0 <= i < |cache.exactLog| :: cache.exactLog[i].at < now
      requires forall i | 0 <= i < |cache.semanticLog| :: cache.semanticLog[i].at < now
      requires TrimSpace(question) == question && question != ""
      requires var v := b.embed(question);
               vector == if cache.IsSemanticEnabledForQuestion(question) && v.Some? then v.value else []
      modifies this`exactHistory, this`semanticHistory
      modifies cache`exactEntries, cache`semanticEntries, cache`clock, cache`exactLog, cache`semanticLog
      ensures cache.Valid() && Logged() && old(cache.clock) <= cache.clock <= now
      ensures r == Uncached(setup, b, question, ctx.language)
      ensures Remembers(old(exactHistory), old(semanticHistory), question, ctx, b, now, Miss, r)
    {
      hide Tracks, Increasing, TrimSpace, Uncached, ExactlyLogged, SemanticallyLogged;
      r := ComputeAnswer(question, vector, ctx.language, b);
      if r.Some? {
        Store(question, vector, ctx, b, r.value, now);
      }
    }
  }

  /** How a cacheable question was looked up: an exact hit means that the log keeps the key alive; after an exact
      miss, a long enough question is embedded if the semantic cache is on, an embedding failure means that the
      embedder failed, and a semantic hit gives the best live entry while a miss shows that there is none. */
  ghost predicate LookedUp(cache: Cache, exactLog: Log, semanticLog: Log, question: string, ctx: CacheContext,
                           b: Backend,
                           t1: int, t2: int, how: Lookup, r: Option<Output>)
    requires IsSquareRoot(cache.sqrt)
  {
    && (how.ExactHit? <==> Alive(exactLog, ExactKey(cache.hash, question, ctx), t1, cache.ExactLimits()))
    && (how.ExactHit? || PastExact(cache, semanticLog, question, ctx, b, t2, how, r))
  }

  ghost predicate PastExact(cache: Cache, semanticLog: Log, question: string, ctx: CacheContext, b: Backend,
                            now: int, how: Lookup, r: Option<Output>)
    requires IsSquareRoot(cache.sqrt)
  {
    var attempted := cache.cfg.semanticEnabled && |TrimSpace(question)| >= cache.cfg.minChars;
    var v := b.embed(question);
    && (how.EmbedFailure? <==> attempted && v.None?)
    && (how.SemanticHit? ==> attempted && v.Some? && v.value != [])
    && (attempted && v.Some? && v.value != [] ==>
          IsBestAnswer(cache.sqrt, v.value, cache.cfg.threshold, semanticLog, now, cache.SemanticLimits(),
                       ContextHash(cache.hash, ctx),
                       if how.SemanticHit? then r else None, if how.SemanticHit? then how.score else -1.0))
  }

  /** Where the answer comes from: a remembered computation with the same key, one of the same context, or the
      backend, errors included. */
  ghost predicate CameFrom(s: Setup, cache: Cache, exact: seq<Computation>, semantic: seq<Computation>,
                           question: string, ctx: CacheContext, b: Backend, t1: int, t2: int, how: Lookup,
                           r: Option<Output>)
  {
    match how
    case ExactHit => r.Some? && ExactSource(s, cache.hash, exact, question, ctx, t1, cache.cfg.exactTTL, r.value)
    case SemanticHit(_) => && r.Some? && cache.cfg.semanticEnabled
                           && SemanticSource(s, cache.hash, semantic, ctx, t2, cache.cfg.semanticTTL, r.value)
    case Miss => r == Uncached(s, b, question, ctx.language)
    case EmbedFailure => r.None? && Uncached(s, b, question, ctx.language).None?
  }

  /** The answer was computed and stored under the same context hash at most `ttl` ago. */
  ghost predicate SemanticSource(s: Setup, h: Hash, history: seq<Computation>, ctx: CacheContext, now: int, ttl: int,
                                 output: Output) {
    exists i :: && 0 <= i < |history| && history[i].output == output && now <= history[i].at + ttl
                && ContextHash(h, history[i].ctx) == ContextHash(h, ctx)
                && Uncached(s, history[i].backend, history[i].question, history[i].ctx.language) == Some(output)
  }

  /** The answer was computed and stored under the same exact key at most `ttl` ago. */
  ghost predicate ExactSource(s: Setup, h: Hash, history: seq<Computation>, question: string, ctx: CacheContext,
                              now: int, ttl: int, output: Output) {
    exists i :: && 0 <= i < |history| && history[i].output == output && now <= history[i].at + ttl
                && ExactKey(h, history[i].question, history[i].ctx) == ExactKey(h, question, ctx)
                && TrimSpace(history[i].question) == history[i].question
                && Uncached(s, history[i].backend, history[i].question, history[i].ctx.language) == Some(output)
  }

  // ----- Transparency -----

  lemma CodesAreLower(l: string)
    requires IsCode(l)
    ensures ToLower(TrimSpace(l)) == l
  {
    CodesAreTrimmed(l);
  }

  lemma SameLanguage(c: CacheContext, d: CacheContext)
    requires SameContext(c, d) && IsCode(c.language) && IsCode(d.language)
    ensures c.language == d.language
  {
    CodesAreLower(c.language);
    CodesAreLower(d.language);
    hide IsCode, TrimSpace;
  }

  /** The remembered computations are of readable contexts of this service. */
  ghost predicate IsReadableHistory(history: seq<Computation>, ctx: CacheContext) {
    forall i | 0 <= i < |history| ::
             Readable(history[i].ctx) && IsCode(history[i].ctx.language) && SameSetup(history[i].ctx, ctx)
  }

  /** Bounded staleness: an answer from the exact entries is what the service without a cache computed, at
      most the time-to-live earlier, for the same sanitised question in the same language. */
  lemma ExactAnswersAreRecentAnswers(s: Setup, h: Hash, history: seq<Computation>, question: string, ctx: CacheContext,
                                     now: int, ttl: int, output: Output) returns (i: nat)
    requires Injective(h) && Readable(ctx) && IsCode(ctx.language) && TrimSpace(question) == question
    requires IsReadableHistory(history, ctx)
    requires ExactSource(s, h, history, question, ctx, now, ttl, output)
    ensures i < |history| && now - ttl <= history[i].at && history[i].question == question
    ensures SameContext(history[i].ctx, ctx)
    ensures Uncached(s, history[i].backend, question, ctx.language) == Some(output)
  {
    hide Uncached, Readable, TrimSpace, IsCode, SameSetup, SameContext;
    var k :| && 0 <= k < |history| && history[k].output == output && now <= history[k].at + ttl
             && ExactKey(h, history[k].question, history[k].ctx) == ExactKey(h, question, ctx)
             && TrimSpace(history[k].question) == history[k].question
             && Uncached(s, history[k].backend, history[k].question, history[k].ctx.language) == Some(output);
    i := k;
    assert ExactPreimage(history[i].question, history[i].ctx) == ExactPreimage(question, ctx);
    hide ExactPreimage;
    ReadableSameSetup(history[i].ctx, ctx);
    ReadableKeysDiffer(history[i].question, history[i].ctx, question, ctx);
    SameLanguage(history[i].ctx, ctx);
  }

  lemma ReadableSameSetup(c: CacheContext, d: CacheContext)
    ensures SameSetup(c, d) ==> SameSetup(d, c)
  {
  }

  /** A semantic answer was given in the same normalised context, hence in the same language. */
  lemma SemanticAnswersShareTheContext(s: Setup, h: Hash, history: seq<Computation>, ctx: CacheContext, now: int,
                                       ttl: int, output: Output)
    returns (i: nat)
    requires Injective(h) && Readable(ctx) && IsCode(ctx.language) && IsReadableHistory(history, ctx)
    requires SemanticSource(s, h, history, ctx, now, ttl, output)
    ensures i < |history| && now - ttl <= history[i].at && SameContext(history[i].ctx, ctx)
    ensures history[i].output == output
    ensures Uncached(s, history[i].backend, history[i].question, ctx.language) == Some(output)
  {
    hide Uncached, Readable, TrimSpace, IsCode, SameContext, SameSetup;
    var k :| && 0 <= k < |history| && history[k].output == output && now <= history[k].at + ttl
             && ContextHash(h, history[k].ctx) == ContextHash(h, ctx)
             && Uncached(s, history[k].backend, history[k].question, history[k].ctx.language) == Some(output);
    i := k;
    assert ContextSignature(history[i].ctx) == ContextSignature(ctx);
    assert ExactPreimage("", history[i].ctx) == ExactPreimage("", ctx);
    hide ExactPreimage, ContextSignature;
    ReadableKeysDiffer("", history[i].ctx, "", ctx);
    SameLanguage(history[i].ctx, ctx);
  }

  // ----- Whole runs -----

  /** A query of a run, with the backend at that moment and the times of its lookups and of storing. */
  datatype Call = Call(input: Input, backend: Backend, t1: int, t2: int, t3: int)

  predicate InOrder(calls: seq<Call>, start: int) {
    && (forall i | 0 <= i < |calls| :: start < calls[i].t1 <= calls[i].t2 <= calls[i].t3)
    && (forall i, j | 0 <= i < j < |calls| :: calls[i].t3 < calls[j].t1)
  }

  /** The answer of a service without a cache to a query. */
  function Plain(s: Setup, b: Backend, input: Input): Option<Output> {
    if TrimSpace(input.question) == "" then None
    else Uncached(s, b, SanitizeQuestion(s, input.question), ContextOf(s, input).language)
  }

  function Question(s: Setup, call: Call): string { SanitizeQuestion(s, call.input.question) }
  function Context(s: Setup, call: Call): CacheContext { ContextOf(s, call.input) }

  /** The answer to call `i` is the backend's; or the one the backend of an earlier call gave for the same question
      in the same context, within the time limit; or, with the semantic lookup on, the one an earlier call got in
      the same context, within its limit. */
  ghost predicate Explained(s: Setup, cfg: Config, calls: seq<Call>, i: nat, r: Option<Output>)
    requires i < |calls|
  {
    || r == Plain(s, calls[i].backend, calls[i].input)
    || (r.Some? && exists j :: 0 <= j < i && IsRecent(s, cfg.exactTTL, calls[j], calls[i], r))
    || (r.Some? && cfg.semanticEnabled &&
        exists j :: 0 <= j < i && IsSimilar(s, cfg.semanticTTL, calls[j], calls[i], r))
  }

  /** Two queries in one language about one votation, object and canton. */
  predicate AskedAlike(a: Input, b: Input) {
    && ServiceLanguage(a.language) == ServiceLanguage(b.language)
    && TrimSpace(a.votationID) == TrimSpace(b.votationID) && TrimSpace(a.objectID) == TrimSpace(b.objectID)
    && UpToCase(TrimSpace(a.canton), TrimSpace(b.canton))
  }

  /** One mode and one pair of models, a missing name counting as "unknown", and one number of hits. */
  predicate SameModels(s: Setup, t: Setup) {
    && (if TrimSpace(s.ragMode) == "" then "unknown" else TrimSpace(s.ragMode))
       == (if TrimSpace(t.ragMode) == "" then "unknown" else TrimSpace(t.ragMode))
    && (if TrimSpace(s.embedderName) == "" then "unknown" else TrimSpace(s.embedderName))
       == (if TrimSpace(t.embedderName) == "" then "unknown" else TrimSpace(t.embedderName))
    && (if TrimSpace(s.summarizerName) == "" then "unknown" else TrimSpace(s.summarizerName))
       == (if TrimSpace(t.summarizerName) == "" then "unknown" else TrimSpace(t.summarizerName))
    && s.topK == t.topK
  }

  lemma NamesAgreeIff(a: string, b: string)
    ensures TrimSpace(NonEmpty(a)) == TrimSpace(NonEmpty(b))
            <==> (if TrimSpace(a) == "" then "unknown" else TrimSpace(a))
                 == (if TrimSpace(b) == "" then "unknown" else TrimSpace(b))
  {
    TrimSpaceFixedPoints(a);
    TrimSpaceFixedPoints(b);
    TrimSpaceFixedPoints("unknown");
    hide TrimSpace;
  }

  /** The contexts of two queries, to one service or to two, are the same to the cache exactly when the services have
      the same models and the queries were asked alike. */
  lemma ContextsAgreeIff(s: Setup, a: Input, t: Setup, b: Input)
    ensures SameContext(ContextOf(s, a), ContextOf(t, b)) <==> SameModels(s, t) && AskedAlike(a, b)
  {
    NamesAgreeIff(s.ragMode, t.ragMode);
    NamesAgreeIff(s.embedderName, t.embedderName);
    NamesAgreeIff(s.summarizerName, t.summarizerName);
    CodesAreLower(ServiceLanguage(a.language));
    CodesAreLower(ServiceLanguage(b.language));
    TrimSpaceFixedPoints(a.votationID);
    TrimSpaceFixedPoints(b.votationID);
    TrimSpaceFixedPoints(a.objectID);
    TrimSpaceFixedPoints(b.objectID);
    TrimSpaceFixedPoints(a.canton);
    TrimSpaceFixedPoints(b.canton);
    hide TrimSpace, ToLower, ServiceLanguage, NonEmpty, UpToCase, IsCode;
  }

  ghost predicate IsRecent(s: Setup, ttl: int, earlier: Call, call: Call, r: Option<Output>) {
    && Question(s, earlier) == Question(s, call) && AskedAlike(earlier.input, call.input)
    && r == Plain(s, earlier.backend, call.input) && call.t1 - ttl <= earlier.t3
  }

  ghost predicate IsSimilar(s: Setup, ttl: int, earlier: Call, call: Call, r: Option<Output>) {
    && AskedAlike(earlier.input, call.input)
    && r == Plain(s, earlier.backend, earlier.input) && call.t2 - ttl <= earlier.t3
  }

  /** Every remembered computation is that of one of the first `n` calls. */
  ghost predicate HistoryOf(s: Setup, calls: seq<Call>, n: nat, history: seq<Computation>)
    requires n <= |calls|
  {
    forall k | 0 <= k < |history| :: IsFrom(s, calls, n, history[k])
  }

  ghost predicate IsFrom(s: Setup, calls: seq<Call>, n: nat, c: Computation)
    requires n <= |calls|
  {
    exists j :: 0 <= j < n && IsComputationOf(s, calls[j], c)
  }

  ghost predicate IsComputationOf(s: Setup, call: Call, c: Computation) {
    && TrimSpace(call.input.question) != ""
    && c.question == Question(s, call) && c.ctx == Context(s, call) && c.at == call.t3 && c.backend == call.backend
  }

  predicate MeetsCache(s: Setup, call: Call) {
    TrimSpace(call.input.question) != "" && Question(s, call) != "" && !s.redacted(Question(s, call))
  }

  function CountMeetings(s: Setup, calls: seq<Call>): nat {
    if calls == [] then 0
    else CountMeetings(s, calls[..|calls| - 1]) + if MeetsCache(s, calls[|calls| - 1]) then 1 else 0
  }

  lemma ContextsShareSetup(s: Setup, a: Input, b: Input)
    ensures SameSetup(ContextOf(s, a), ContextOf(s, b)) && IsCode(ContextOf(s, a).language)
  {
    hide TrimSpace, ToLower, ToUpper, IntToString, IsCode, ServiceLanguage, NonEmpty;
  }

  lemma HistoryIsReadable(s: Setup, calls: seq<Call>, n: nat, history: seq<Computation>, input: Input)
    requires n <= |calls| && HistoryOf(s, calls, n, history)
    requires forall i | 0 <= i < |calls| :: Readable(Context(s, calls[i]))
    ensures IsReadableHistory(history, ContextOf(s, input))
  {
    hide Readable, SameSetup, ContextOf, IsCode, SanitizeQuestion, TrimSpace;
    forall k | 0 <= k < |history|
      ensures Readable(history[k].ctx) && IsCode(history[k].ctx.language)
      ensures SameSetup(history[k].ctx, ContextOf(s, input))
    {
      assert IsFrom(s, calls, n, history[k]);
      var j :| 0 <= j < n && IsComputationOf(s, calls[j], history[k]);
      ContextsShareSetup(s, calls[j].input, input);
    }
  }

  lemma CameFromIsExplained(s: Setup, cache: Cache, calls: seq<Call>, i: nat, exact: seq<Computation>,
                            semantic: seq<Computation>,
                            how: Lookup, r: Option<Output>)
    requires i < |calls| && HistoryOf(s, calls, i, exact) && HistoryOf(s, calls, i, semantic) && Injective(cache.hash)
    requires forall j | 0 <= j < |calls| :: Readable(Context(s, calls[j]))
    requires TrimSpace(calls[i].input.question) != ""
    requires CameFrom(s, cache, exact, semantic, Question(s, calls[i]), Context(s, calls[i]), calls[i].backend,
                      calls[i].t1, calls[i].t2, how, r)
    ensures Explained(s, cache.cfg, calls, i, r)
  {
    hide Readable, SameSetup, ContextOf, IsCode, SanitizeQuestion, TrimSpace, Uncached, SameContext, ExactSource,
         SemanticSource, IsReadableHistory, Injective, AskedAlike;
    var call := calls[i];
    var question, ctx := Question(s, call), Context(s, call);
    ContextsShareSetup(s, call.input, call.input);
    SanitizedIsTrimmed(s, call.input.question);
    match how
    case ExactHit =>
      HistoryIsReadable(s, calls, i, exact, call.input);
      var k := ExactAnswersAreRecentAnswers(s, cache.hash, exact, question, ctx, call.t1, cache.cfg.exactTTL, r.value);
      assert IsFrom(s, calls, i, exact[k]);
      var j :| 0 <= j < i && IsComputationOf(s, calls[j], exact[k]);
      ContextsAgreeIff(s, calls[j].input, s, call.input);
      assert IsRecent(s, cache.cfg.exactTTL, calls[j], call, r);
    case SemanticHit(_) =>
      HistoryIsReadable(s, calls, i, semantic, call.input);
      var k := SemanticAnswersShareTheContext(s, cache.hash, semantic, ctx, call.t2, cache.cfg.semanticTTL, r.value);
      assert IsFrom(s, calls, i, semantic[k]);
      var j :| 0 <= j < i && IsComputationOf(s, calls[j], semantic[k]);
      ContextsShareSetup(s, calls[j].input, call.input);
      SameLanguage(Context(s, calls[j]), ctx);
      ContextsAgreeIff(s, calls[j].input, s, call.input);
      assert IsSimilar(s, cache.cfg.semanticTTL, calls[j], call, r);
    case Miss =>
    case EmbedFailure =>
  }

  lemma HistoryGrows(s: Setup, calls: seq<Call>, n: nat, history: seq<Computation>, added: seq<Computation>)
    requires n < |calls| && HistoryOf(s, calls, n, history)
    requires added == [] || (|added| == 1 && IsComputationOf(s, calls[n], added[0]))
    ensures HistoryOf(s, calls, n + 1, history + added)
  {
    hide IsComputationOf;
    forall k | 0 <= k < |history + added|
      ensures IsFrom(s, calls, n + 1, (history + added)[k])
    {
      if k < |history| {
        assert IsFrom(s, calls, n, history[k]);
      }
    }
  }

  /** A whole run of a fresh service: every answer is explained, and every question that meets the cache has been
      accounted for. */
  method QueryAll(service: Service, calls: seq<Call>) returns (rs: seq<Option<Output>>)
    requires service.Valid() && service.exactHistory == [] && service.semanticHistory == []
    requires service.cache != null ==>
               0 <= service.cache.clock && InOrder(calls, service.cache.clock) && Injective(service.cache.hash)
    requires forall i | 0 <= i < |calls| :: Readable(Context(service.setup, calls[i]))
    modifies service, service.cache
    ensures service.Valid() && |rs| == |calls|
    ensures service.cache == null ==>
              forall i | 0 <= i < |calls| :: rs[i] == Plain(service.setup, calls[i].backend, calls[i].input)
    ensures service.cache != null ==>
              && (forall i | 0 <= i < |calls| :: Explained(service.setup, service.cache.cfg, calls, i, rs[i]))
              && service.tally.cacheable == old(service.tally).cacheable + CountMeetings(service.setup, calls)
  {
    hide Readable, Injective, ExactlyLogged, SemanticallyLogged, Balanced, Tracks, Increasing, Uncached,
         SanitizeQuestion, ContextOf, TrimSpace,
         Accounted, LookedUp, CameFrom, HistoryOf, Explained;
    rs := [];
    var s := service.setup;
    NoHistory(s, calls);
    for i := 0 to |calls|
      invariant service.Valid() && |rs| == i
      invariant service.cache != null ==>
                  0 <= service.cache.clock && forall j | i <= j < |calls| :: service.cache.clock < calls[j].t1
      invariant HistoryOf(s, calls, i, service.exactHistory) && HistoryOf(s, calls, i, service.semanticHistory)
      invariant service.cache == null ==> forall j | 0 <= j < i :: rs[j] == Plain(s, calls[j].backend, calls[j].input)
      invariant service.cache != null ==> forall j | 0 <= j < i :: Explained(s, service.cache.cfg, calls, j, rs[j])
      invariant service.cache != null ==>
                  service.tally.cacheable == old(service.tally).cacheable + CountMeetings(s, calls[..i])
    {
      var r := QueryNext(service, calls, i);
      assert calls[..i + 1][..i] == calls[..i];
      rs := rs + [r];
    }
    assert calls[..|calls|] == calls;
  }

  /** One call of a run. */
  method QueryNext(service: Service, calls: seq<Call>, i: nat) returns (r: Option<Output>)
    requires i < |calls| && service.Valid()
    requires HistoryOf(service.setup, calls, i, service.exactHistory)
    requires HistoryOf(service.setup, calls, i, service.semanticHistory)
    requires service.cache != null ==>
               0 <= service.cache.clock < calls[i].t1 <= calls[i].t2 <= calls[i].t3 && Injective(service.cache.hash)
    requires forall j | 0 <= j < |calls| :: Readable(Context(service.setup, calls[j]))
    modifies service, service.cache
    ensures service.Valid()
    ensures HistoryOf(service.setup, calls, i + 1, service.exactHistory)
    ensures HistoryOf(service.setup, calls, i + 1, service.semanticHistory)
    ensures service.cache == null ==> r == Plain(service.setup, calls[i].backend, calls[i].input)
    ensures service.cache != null ==>
              && 0 <= service.cache.clock <= calls[i].t3
              && Explained(service.setup, service.cache.cfg, calls, i, r)
              && service.tally.cacheable == old(service.tally).cacheable + OneIf(MeetsCache(service.setup, calls[i]))
  {
    hide Readable, Injective, ExactlyLogged, SemanticallyLogged, Balanced, Tracks, Increasing, Uncached,
         SanitizeQuestion, ContextOf, TrimSpace,
         LookedUp, CameFrom, HistoryOf;
    var s, call := service.setup, calls[i];
    ghost var exact, semantic := service.exactHistory, service.semanticHistory;
    ghost var how;
    r, how := service.Query(call.input, call.backend, call.t1, call.t2, call.t3);
    HistoryGrows(s, calls, i, exact, service.exactHistory[|exact|..]);
    HistoryGrows(s, calls, i, semantic, service.semanticHistory[|semantic|..]);
    assert service.exactHistory == exact + service.exactHistory[|exact|..];
    assert service.semanticHistory == semantic + service.semanticHistory[|semantic|..];
    if service.cache != null && MeetsCache(s, call) {
      CameFromIsExplained(s, service.cache, calls, i, exact, semantic, how, r);
    }
  }

  lemma NoHistory(s: Setup, calls: seq<Call>)
    ensures HistoryOf(s, calls, 0, [])
  {
  }

  /** With a backend that does not change and the semantic cache off, the answers of a whole run with a cache are
      those of a service without one, errors included. */
  lemma CacheIsTransparent(s: Setup, cfg: Config, calls: seq<Call>, rs: seq<Option<Output>>, b: Backend)
    requires |rs| == |calls| && forall i | 0 <= i < |calls| :: Explained(s, cfg, calls, i, rs[i])
    requires !cfg.semanticEnabled && forall i | 0 <= i < |calls| :: calls[i].backend == b
    ensures forall i | 0 <= i < |calls| :: rs[i] == Plain(s, b, calls[i].input)
  {
    hide Plain, Question, Context, SameContext;
    forall i | 0 <= i < |calls|
      ensures rs[i] == Plain(s, b, calls[i].input)
    {
      assert Explained(s, cfg, calls, i, rs[i]);
    }
  }
}
