/** The question-and-answer cache (backend/internal/services/qa_cache.go). */
module QACache {
  import opened Text
  import opened Documents
  import opened Lists
  import opened CacheKeys
  import opened Similarity
  import opened EntryLog

  datatype Citation = Citation(sourceType: string, url: string, title: string)

  datatype Output = Output(answer: string, language: string, citations: seq<Citation>, confidence: real,
                           usedDocuments: seq<string>)

  datatype Config = Config(
    enabled: bool, exactTTL: int, exactMax: int, semanticEnabled: bool, semanticTTL: int, semanticMax: int,
    threshold: real, minChars: int)

  /** What a Set call stores under a key. */
  datatype Cached = Cached(questionHash: string, contextHash: string, vector: seq<real>, output: Output)

  type Log = seq<Record<string, Cached>>

  datatype Metrics = Metrics(
    exactHits: int, semanticHits: int, misses: int,
    bypassSensitive: int, bypassSemanticDisabled: int, bypassTooShort: int,
    scoreSum: real, scoreCount: int, savedInput: int, savedOutput: int, savedTotal: int)

  const NO_METRICS := Metrics(0, 0, 0, 0, 0, 0, 0.0, 0, 0, 0, 0)

  /** About four characters a token, rounded up. */
  function EstimateTokens(chars: nat): (r: nat)
    ensures 4 * r - 4 < chars <= 4 * r
  {
    (chars + 3) / 4
  }

  function Saved(m: Metrics, question: string, output: Output): Metrics {
    var i, o := EstimateTokens(|TrimSpace(question)|), EstimateTokens(|TrimSpace(output.answer)|);
    m.(savedInput := m.savedInput + i, savedOutput := m.savedOutput + o, savedTotal := m.savedTotal + (i + o))
  }

  function SemanticHitNoted(m: Metrics, score: real, question: string, output: Output): Metrics {
    Saved(m.(semanticHits := m.semanticHits + 1, scoreSum := m.scoreSum + score, scoreCount := m.scoreCount + 1),
          question, output)
  }

  /** A live key Set under the given context. */
  ghost predicate Candidate(log: Log, k: string, now: int, limits: Limits, contextHash: string)
    ensures Candidate(log, k, now, limits, contextHash) ==> LastSet(log, k) >= 0
  {
    Alive(log, k, now, limits) && log[LastSet(log, k)].value.contextHash == contextHash
  }

  /** How similar the question is to the one last Set under the key. */
  ghost function Score(sqrt: real -> real, vector: seq<real>, log: Log, k: string): real
    requires IsSquareRoot(sqrt) && LastSet(log, k) >= 0
  {
    Cosine(sqrt, vector, log[LastSet(log, k)].value.vector)
  }

  /** What a semantic lookup must answer: a hit is an entry Set under the same context, still alive, at least
      as similar as the threshold asks and as similar as any other; without a hit there is no such entry. */
  ghost predicate IsBestAnswer(sqrt: real -> real, vector: seq<real>, threshold: real, log: Log, now: int,
                               limits: Limits,
                               contextHash: string, out: Option<Output>, score: real)
    requires IsSquareRoot(sqrt)
  {
    if out.Some? then
      && (exists k :: && Candidate(log, k, now, limits, contextHash)
                      && out.value == log[LastSet(log, k)].value.output
                      && score == Score(sqrt, vector, log, k) >= threshold && score > -1.0)
      && (forall k :: Candidate(log, k, now, limits, contextHash) ==> Score(sqrt, vector, log, k) <= score)
    else
      forall k :: Candidate(log, k, now, limits, contextHash) ==>
        Score(sqrt, vector, log, k) < threshold || Score(sqrt, vector, log, k) <= -1.0
  }

  lemma BestIsAnswer(sqrt: real -> real, vector: seq<real>, threshold: real, log: Log, now: int, limits: Limits,
                     contextHash: string, best: Option<string>, score: real)
    requires IsSquareRoot(sqrt)
    requires best.None? ==> score == -1.0
    requires best.Some? ==>
               && Candidate(log, best.value, now, limits, contextHash)
               && score == Score(sqrt, vector, log, best.value) > -1.0
    requires forall k :: Candidate(log, k, now, limits, contextHash) ==> Score(sqrt, vector, log, k) <= score
    ensures var out := if best.None? || score < threshold then None
                       else Some(log[LastSet(log, best.value)].value.output);
            IsBestAnswer(sqrt, vector, threshold, log, now, limits, contextHash, out, score)
  {
    hide Candidate, Score, LastSet;
  }

  class Cache {
    const cfg: Config
    const hash: Hash
    const sqrt: real -> real

    var exactEntries: map<string, Entry<Cached>>
    var semanticEntries: map<string, Entry<Cached>>
    var metrics: Metrics

    /** Every Set call so far, and the last time the cache has seen. */
    ghost var exactLog: Log
    ghost var semanticLog: Log
    var clock: int  // the last value of now()

    function ExactLimits(): Limits { Limits(cfg.exactTTL, cfg.exactMax) }
    function SemanticLimits(): Limits { Limits(cfg.semanticTTL, cfg.semanticMax) }

    /** The entries are what the logs of Set calls say they should be. */
    ghost predicate Valid()
      reads this
    {
      && cfg.exactTTL > 0 && cfg.semanticTTL > 0 && IsSquareRoot(sqrt)
      && Increasing(exactLog) && Increasing(semanticLog)
      && (forall i | 0 <= i < |exactLog| :: exactLog[i].at <= clock)
      && (forall i | 0 <= i < |semanticLog| :: semanticLog[i].at <= clock)
      && Tracks(exactEntries, exactLog, clock, ExactLimits())
      && Tracks(semanticEntries, semanticLog, clock, SemanticLimits())
    }

    constructor (cfg: Config, hash: Hash, sqrt: real -> real)
      requires cfg.exactTTL > 0 && cfg.semanticTTL > 0 && IsSquareRoot(sqrt)
      ensures Valid() && exactLog == [] && semanticLog == [] && clock == 0 && metrics == NO_METRICS
      ensures metrics.bypassSensitive == 0 && metrics.scoreSum == 0.0 && metrics.scoreCount == 0
      ensures this.cfg == cfg && this.hash == hash && this.sqrt == sqrt
    {
      this.cfg, this.hash, this.sqrt := cfg, hash, sqrt;
      exactEntries, semanticEntries, metrics := map[], map[], NO_METRICS;
      exactLog, semanticLog, clock := [], [], 0;
    }

    predicate LongEnough(question: string) {
      |TrimSpace(question)| >= cfg.minChars
    }

    predicate IsSemanticEnabledForQuestion(question: string) {
      cfg.semanticEnabled && LongEnough(question)
    }

    method RemoveExpiredLocked(now: int)
      requires Valid() && clock <= now
      modifies this`exactEntries, this`semanticEntries, this`clock
      ensures Valid() && clock == now
    {
      ghost var before := clock;
      ExpiryTracks(exactEntries, exactLog, before, now, ExactLimits());
      ExpiryTracks(semanticEntries, semanticLog, before, now, SemanticLimits());
      hide Tracks, Increasing;
      exactEntries := RemoveExpired(exactEntries, now);
      semanticEntries := RemoveExpired(semanticEntries, now);
      clock := now;
    }

    /** A lookup hits exactly when the log of Set calls keeps the key alive, and returns what was Set last. */
    method GetExact(question: string, ctx: CacheContext, now: int) returns (out: Option<Output>)
      requires Valid() && clock <= now
      modifies this`exactEntries, this`semanticEntries, this`clock, this`metrics
      ensures Valid() && clock == now
      ensures var key := ExactKey(hash, question, ctx);
              && (out.Some? <==> Alive(exactLog, key, now, ExactLimits()))
              && (out.Some? ==> out.value == exactLog[LastSet(exactLog, key)].value.output)
      ensures metrics == if out.None? then old(metrics)
                         else Saved(old(metrics).(exactHits := old(metrics).exactHits + 1), question, out.value)
    {
      hide Alive, Increasing, ExactKey, Tracks, TrimSpace, LastSet;
      var key := ExactKey(hash, question, ctx);
      RemoveExpiredLocked(now);
      TracksLookup(exactEntries, exactLog, now, ExactLimits(), key);
      if key !in exactEntries {
        return None;
      }
      var entry := exactEntries[key];
      var touched := entry.(lastHitAt := now, hitCount := entry.hitCount + 1);
      TouchTracks(exactEntries, exactLog, now, ExactLimits(), key, touched);
      exactEntries := exactEntries[key := touched];
      metrics := Saved(metrics.(exactHits := metrics.exactHits + 1), question, entry.value.output);
      return Some(entry.value.output);
    }

    /** The most similar entry of the context, if any is more similar than -1. */
    method BestMatch(vector: seq<real>, contextHash: string) returns (best: Option<string>, score: real)
      requires IsSquareRoot(sqrt)
      ensures best.None? ==> score == -1.0
      ensures best.Some? ==> && best.value in semanticEntries
                             && semanticEntries[best.value].value.contextHash == contextHash
                             && score == Cosine(sqrt, vector, semanticEntries[best.value].value.vector) > -1.0
      ensures forall k | k in semanticEntries && semanticEntries[k].value.contextHash == contextHash ::
                Cosine(sqrt, vector, semanticEntries[k].value.vector) <= score
    {
      best, score := None, -1.0;
      var pending := semanticEntries.Keys;
      while pending != {}
        invariant pending <= semanticEntries.Keys
        invariant best.None? ==> score == -1.0
        invariant best.Some? ==> && best.value in semanticEntries
                                 && semanticEntries[best.value].value.contextHash == contextHash
                                 && score == Cosine(sqrt, vector, semanticEntries[best.value].value.vector) > -1.0
        invariant forall k | k in semanticEntries - pending && semanticEntries[k].value.contextHash == contextHash ::
                    Cosine(sqrt, vector, semanticEntries[k].value.vector) <= score
      {
        var key :| key in pending;
        pending := pending - {key};
        var entry := semanticEntries[key];
        if entry.value.contextHash != contextHash {
          continue;
        }
        var s := CosineSimilarity(sqrt, vector, entry.value.vector);
        if s > score {
          best, score := Some(key), s;
        }
      }
    }

    /** BestMatch in terms of the log. */
    method BestCandidate(vector: seq<real>, contextHash: string) returns (best: Option<string>, score: real)
      requires Valid()
      ensures best.None? ==> score == -1.0
      ensures best.Some? ==> && best.value in semanticEntries && Candidate(semanticLog, best.value, clock,
                                                                           SemanticLimits(), contextHash)
                             && semanticEntries[best.value].value == semanticLog[LastSet(semanticLog, best.value)].value
                             && score == Score(sqrt, vector, semanticLog, best.value) > -1.0
      ensures forall k :: Candidate(semanticLog, k, clock, SemanticLimits(), contextHash) ==>
                Score(sqrt, vector, semanticLog, k) <= score
    {
      hide Cosine, Increasing, Tracks, Alive, LastSet;
      best, score := BestMatch(vector, contextHash);
      forall k
        ensures Candidate(semanticLog, k, clock, SemanticLimits(), contextHash)
           <==> k in semanticEntries && semanticEntries[k].value.contextHash == contextHash
        ensures k in semanticEntries ==>
                  LastSet(semanticLog, k) >= 0 && semanticEntries[k].value == semanticLog[LastSet(semanticLog, k)].value
      {
        TracksLookup(semanticEntries, semanticLog, clock, SemanticLimits(), k);
      }
    }

    method NoteSemanticHit(key: string, score: real, question: string) returns (out: Output)
      requires Valid() && key in semanticEntries
      modifies this`semanticEntries, this`metrics
      ensures Valid() && out == old(semanticEntries[key]).value.output
      ensures metrics == SemanticHitNoted(old(metrics), score, question, out)
    {
      hide Increasing, Tracks, TrimSpace;
      var entry := semanticEntries[key];
      var touched := entry.(lastHitAt := clock, hitCount := entry.hitCount + 1);
      TouchTracks(semanticEntries, semanticLog, clock, SemanticLimits(), key, touched);
      semanticEntries := semanticEntries[key := touched];
      metrics := SemanticHitNoted(metrics, score, question, entry.value.output);
      return entry.value.output;
    }

    /** The part of GetSemantic that runs under the lock. */
    method LookupSemantic(vector: seq<real>, question: string, contextHash: string, now: int)
      returns (out: Option<Output>, score: real)
      requires Valid() && clock <= now
      modifies this`exactEntries, this`semanticEntries, this`clock, this`metrics
      ensures Valid() && clock == now
      ensures IsBestAnswer(sqrt, vector, cfg.threshold, semanticLog, now, SemanticLimits(), contextHash, out, score)
      ensures metrics == if out.None? then old(metrics) else SemanticHitNoted(old(metrics), score, question, out.value)
    {
      hide Cosine, LastSet, SemanticHitNoted, Score, Candidate, IsBestAnswer, Tracks, Increasing;
      RemoveExpiredLocked(now);
      var best;
      best, score := BestCandidate(vector, contextHash);
      BestIsAnswer(sqrt, vector, cfg.threshold, semanticLog, now, SemanticLimits(), contextHash, best, score);
      if best.None? || score < cfg.threshold {
        return None, score;
      }
      var output := NoteSemanticHit(best.value, score, question);
      return Some(output), score;
    }

    method GetSemantic(vector: seq<real>, question: string, ctx: CacheContext, now: int)
      returns (out: Option<Output>, score: real)
      requires Valid() && clock <= now
      modifies this`exactEntries, this`semanticEntries, this`clock, this`metrics
      ensures Valid()
      ensures if cfg.semanticEnabled && vector != [] && |TrimSpace(question)| >= cfg.minChars then
                clock == now && IsBestAnswer(sqrt, vector, cfg.threshold, semanticLog, now, SemanticLimits(),
                                             ContextHash(hash, ctx), out, score)
              else out.None? && clock == old(clock)
      ensures metrics == if out.None? then old(metrics) else SemanticHitNoted(old(metrics), score, question, out.value)
    {
      hide ContextHash, TrimSpace, SemanticHitNoted, IsBestAnswer, Tracks, Increasing;
      if !cfg.semanticEnabled {
        return None, 0.0;
      }
      if vector == [] || !LongEnough(question) {
        return None, 0.0;
      }
      out, score := LookupSemantic(vector, question, ContextHash(hash, ctx), now);
    }

    /** A Set is recorded under its exact key and, for questions the semantic cache takes, under its semantic
        key; afterwards both maps are again what the logs keep alive. */
    method Set(question: string, vector: seq<real>, ctx: CacheContext, output: Output, now: int)
      requires Valid() && clock <= now && 0 < now
      requires forall i | 0 <= i < |exactLog| :: exactLog[i].at < now
      requires forall i | 0 <= i < |semanticLog| :: semanticLog[i].at < now
      modifies this`exactEntries, this`semanticEntries, this`clock, this`exactLog, this`semanticLog
      ensures Valid() && clock == now
      ensures var questionHash, contextHash := hash(TrimSpace(question)), ContextHash(hash, ctx);
              && exactLog == old(exactLog) + [Record(ExactKey(hash, question, ctx),
                                                     Cached(questionHash, contextHash, [], output), now)]
              && semanticLog == old(semanticLog)
                   + if cfg.semanticEnabled && vector != [] && |TrimSpace(question)| >= cfg.minChars
                     then [Record(SemanticKey(hash, questionHash, contextHash),
                                  Cached(questionHash, contextHash, vector, output), now)]
                     else []
    {
      hide ContextHash, SemanticKey, ExactKey, TrimSpace, Tracks;
      var contextHash := ContextHash(hash, ctx);
      var questionHash := hash(TrimSpace(question));
      var exactKey := ExactKey(hash, question, ctx);
      RemoveExpiredLocked(now);
      SetExact(exactKey, Cached(questionHash, contextHash, [], output));
      if cfg.semanticEnabled && vector != [] && LongEnough(question) {
        var semanticKey := SemanticKey(hash, questionHash, contextHash);
        SetSemantic(semanticKey, Cached(questionHash, contextHash, vector, output));
      }
    }

    method SetExact(key: string, cached: Cached)
      requires Valid() && 0 < clock && forall i | 0 <= i < |exactLog| :: exactLog[i].at < clock
      modifies this`exactEntries, this`exactLog
      ensures Valid() && exactLog == old(exactLog) + [Record(key, cached, clock)]
    {
      hide Tracks, Evicted, Alive, Increasing, IsSquareRoot;
      var now := clock;
      ghost var record := Record(key, cached, now);
      StaysIncreasing(exactLog, record);
      var entry := Entry(cached, now, now + cfg.exactTTL, now, 0);
      var kept := EvictOldest(exactEntries[key := entry], cfg.exactMax);
      SetTracks(exactEntries, exactLog, record, entry, kept, ExactLimits());
      exactEntries := kept;
      exactLog := exactLog + [record];
    }

    method SetSemantic(key: string, cached: Cached)
      requires Valid() && 0 < clock && forall i | 0 <= i < |semanticLog| :: semanticLog[i].at < clock
      modifies this`semanticEntries, this`semanticLog
      ensures Valid() && semanticLog == old(semanticLog) + [Record(key, cached, clock)]
    {
      hide Tracks, Evicted, Alive, Increasing, IsSquareRoot;
      var now := clock;
      ghost var record := Record(key, cached, now);
      StaysIncreasing(semanticLog, record);
      var entry := Entry(cached, now, now + cfg.semanticTTL, now, 0);
      var kept := EvictOldest(semanticEntries[key := entry], cfg.semanticMax);
      SetTracks(semanticEntries, semanticLog, record, entry, kept, SemanticLimits());
      semanticEntries := kept;
      semanticLog := semanticLog + [record];
    }

    method RecordMiss()
      requires Valid()
      modifies this`metrics
      ensures Valid() && metrics == old(metrics).(misses := old(metrics).misses + 1)
    {
      hide Tracks, Increasing;
      metrics := metrics.(misses := metrics.misses + 1);
    }

    method RecordBypassSensitiveQuestion()
      requires Valid()
      modifies this`metrics
      ensures Valid() && metrics == old(metrics).(bypassSensitive := old(metrics).bypassSensitive + 1)
    {
      hide Tracks, Increasing;
      metrics := metrics.(bypassSensitive := metrics.bypassSensitive + 1);
    }

    method RecordBypassSemanticDisabled()
      requires Valid()
      modifies this`metrics
      ensures Valid() && metrics == old(metrics).(bypassSemanticDisabled := old(metrics).bypassSemanticDisabled + 1)
    {
      hide Tracks, Increasing;
      metrics := metrics.(bypassSemanticDisabled := metrics.bypassSemanticDisabled + 1);
    }

    method RecordBypassQuestionTooShort()
      requires Valid()
      modifies this`metrics
      ensures Valid() && metrics == old(metrics).(bypassTooShort := old(metrics).bypassTooShort + 1)
    {
      hide Tracks, Increasing;
      metrics := metrics.(bypassTooShort := metrics.bypassTooShort + 1);
    }
  }

  /** Re-asking a question with its own vector: as long as the entry of its last Set is alive, no threshold up
      to 1 can make the lookup miss, and what it finds is as similar as can be. */
  lemma OwnVectorAlwaysHits(sqrt: real -> real, vector: seq<real>, threshold: real, log: Log, now: int, limits: Limits,
                            k: string, contextHash: string, out: Option<Output>, score: real)
    requires IsSquareRoot(sqrt) && threshold <= 1.0 && Norm2(vector) != 0.0
    requires Candidate(log, k, now, limits, contextHash) && log[LastSet(log, k)].value.vector == vector
    requires IsBestAnswer(sqrt, vector, threshold, log, now, limits, contextHash, out, score)
    ensures out.Some? && score == 1.0
  {
    CosineOfItself(sqrt, vector);
    assert Score(sqrt, vector, log, k) == 1.0;
    if out.Some? {
      var best :| Candidate(log, best, now, limits, contextHash) && score == Score(sqrt, vector, log, best);
      CosineIsBounded(sqrt, vector, log[LastSet(log, best)].value.vector);
    }
    hide Cosine, Candidate, LastSet;
  }

  // ----- Rates -----

  /** math.Round(value*10000)/10000 for values that are not negative. */
  function RoundMetric(value: real): real {
    (value * 10000.0 + 0.5).Floor as real / 10000.0
  }

  lemma RoundedMetricIsNear(value: real)
    requires 0.0 <= value <= 1.0
    ensures value - 0.00005 <= RoundMetric(value) <= value + 0.00005
    ensures RoundMetric(value) * 10000.0 == (RoundMetric(value) * 10000.0).Floor as real
  {
    var k := (value * 10000.0 + 0.5).Floor;
    assert RoundMetric(value) * 10000.0 == k as real;
  }

  lemma ScaledInOrder(a: real, b: real, n: real)
    requires a <= b && n > 0.0
    ensures a * n <= b * n
  {
  }

  lemma WithinScaled(c: real, x: real, d: real, n: real, total: real)
    requires x - d <= c <= x + d && n > 0.0 && x * n == total
    ensures total - d * n <= c * n <= total + d * n
  {
    ScaledInOrder(x - d, c, n);
    ScaledInOrder(c, x + d, n);
    assert (x - d) * n == x * n - d * n && (x + d) * n == x * n + d * n;
  }

  lemma RoundMetricIsMonotone(x: real, y: real)
    requires x <= y
    ensures RoundMetric(x) <= RoundMetric(y)
  {
    assert (x * 10000.0 + 0.5).Floor <= (y * 10000.0 + 0.5).Floor;
  }

  function Rate(part: int, total: int): real
    requires total >= 0
  {
    if total > 0 then part as real / total as real else 0.0
  }

  lemma RateTimesTotal(part: int, total: int)
    requires 0 <= part <= total
    ensures total > 0 ==> Rate(part, total) * total as real == part as real
    ensures total == 0 ==> Rate(part, total) == 0.0
    ensures 0.0 <= Rate(part, total) <= 1.0
  {
  }

  /** A rate is shown in ten-thousandths, within half of one of the share it stands for, and 0 before any lookup. */
  lemma RateIsRoundedShare(part: int, total: int)
    requires 0 <= part <= total
    ensures var r := RoundMetric(Rate(part, total));
            && r * 10000.0 == (r * 10000.0).Floor as real
            && (total == 0 ==> r == 0.0)
            && (total > 0 ==> part as real - 0.00005 * total as real <= r * total as real
                              <= part as real + 0.00005 * total as real)
  {
    RateTimesTotal(part, total);
    RoundedMetricIsNear(Rate(part, total));
    hide Rate, RoundMetric;
    if total > 0 {
      WithinScaled(RoundMetric(Rate(part, total)), Rate(part, total), 0.00005, total as real, part as real);
    } else {
      RoundedZero();
    }
  }

  lemma RoundedZero()
    ensures RoundMetric(0.0) == 0.0
  {
  }

  lemma RateIsMonotone(a: int, b: int, total: int)
    requires 0 <= a <= b <= total
    ensures 0.0 <= Rate(a, total) <= Rate(b, total) <= 1.0
  {
  }

  /** The rates the metrics snapshot shows: 0 <= semanticHitRate <= hitRate <= 1 for every count of lookups. */
  lemma RatesAreOrdered(m: Metrics)
    requires m.exactHits >= 0 && m.semanticHits >= 0 && m.misses >= 0
    ensures var lookups := m.exactHits + m.semanticHits + m.misses;
            var hits := m.exactHits + m.semanticHits;
            0.0 <= RoundMetric(Rate(m.semanticHits, lookups)) <= RoundMetric(Rate(hits, lookups)) <= 1.0
  {
    var lookups := m.exactHits + m.semanticHits + m.misses;
    RateIsMonotone(m.semanticHits, m.exactHits + m.semanticHits, lookups);
    RoundMetricIsMonotone(0.0, Rate(m.semanticHits, lookups));
    RoundMetricIsMonotone(Rate(m.semanticHits, lookups), Rate(m.exactHits + m.semanticHits, lookups));
    RoundMetricIsMonotone(Rate(m.exactHits + m.semanticHits, lookups), 1.0);
    assert RoundMetric(0.0) == 0.0 && RoundMetric(1.0) == 1.0;
  }
}
