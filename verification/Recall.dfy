/** Which stored questions the semantic cache finds again, in terms of the questions and contexts themselves
    (backend/internal/services/qa_cache.go). */
module Recall {
  import opened Text
  import opened Documents
  import opened CacheKeys
  import opened KeyReadings
  import opened Similarity
  import opened EntryLog
  import opened QACache

  /** One Set call. */
  datatype Stored = Stored(question: string, ctx: CacheContext, vector: seq<real>, output: Output, at: int)

  /** What the semantic log holds of the Set calls. */
  function Logged(h: Hash, stores: seq<Stored>): (r: Log)
    ensures |r| == |stores|
  {
    seq(|stores|, i requires 0 <= i < |stores| => LoggedOne(h, stores[i]))
  }

  function LoggedOne(h: Hash, s: Stored): Record<string, Cached> {
    var questionHash, contextHash := h(TrimSpace(s.question)), ContextHash(h, s.ctx);
    Record(SemanticKey(h, questionHash, contextHash), Cached(questionHash, contextHash, s.vector, s.output), s.at)
  }

  /** Calls in order of time after `start`, with questions the semantic cache takes. */
  ghost predicate Suitable(cache: Cache, stores: seq<Stored>, start: int) {
    && (forall j | 0 <= j < |stores| :: start < stores[j].at && 0 < stores[j].at && stores[j].vector != []
                                        && |TrimSpace(stores[j].question)| >= cache.cfg.minChars)
    && forall i, j | 0 <= i < j < |stores| :: stores[i].at < stores[j].at
  }

  method StoreAll(cache: Cache, stores: seq<Stored>)
    requires cache.Valid() && cache.cfg.semanticEnabled && Suitable(cache, stores, cache.clock)
    modifies cache
    ensures cache.Valid() && cache.semanticLog == old(cache.semanticLog) + Logged(cache.hash, stores)
    ensures cache.clock == if stores == [] then old(cache.clock) else stores[|stores| - 1].at
  {
    hide Tracks, Increasing, TrimSpace, ContextHash, SemanticKey, ExactKey, IsSquareRoot;
    for i := 0 to |stores|
      invariant cache.Valid() && cache.semanticLog == old(cache.semanticLog) + Logged(cache.hash, stores[..i])
      invariant cache.clock == if i == 0 then old(cache.clock) else stores[i - 1].at
    {
      var s := stores[i];
      cache.Set(s.question, s.vector, s.ctx, s.output, s.at);
      assert Logged(cache.hash, stores[..i + 1]) == Logged(cache.hash, stores[..i]) + [LoggedOne(cache.hash, s)];
    }
    assert stores[..|stores|] == stores;
  }

  // ----- Which questions are found -----

  /** The same question in the same context. */
  ghost predicate SamePair(a: Stored, b: Stored) {
    TrimSpace(a.question) == TrimSpace(b.question) && SameContext(a.ctx, b.ctx)
  }

  /** Readable contexts of one service. */
  ghost predicate OfOneService(stores: seq<Stored>) {
    && (forall i | 0 <= i < |stores| :: Readable(stores[i].ctx) && IsCode(stores[i].ctx.language))
    && forall i, j | 0 <= i < |stores| && 0 <= j < |stores| :: SameSetup(stores[i].ctx, stores[j].ctx)
  }

  lemma SameHashSameContext(h: Hash, c: CacheContext, d: CacheContext)
    requires Injective(h) && IsCode(c.language) && IsCode(d.language) && SameSetup(c, d) && Readable(c) && Readable(d)
    requires ContextHash(h, c) == ContextHash(h, d)
    ensures SameContext(c, d)
  {
    hide ContextSignature, Readable, IsCode, SameSetup, SameContext, TrimSpace;
    assert ExactPreimage("", c) == ExactPreimage("", d);
    ReadableKeysDiffer("", c, "", d);
  }

  /** The pairs of question and context stored after call `i`. */
  ghost function LaterPairs(stores: seq<Stored>, i: int): set<(string, CacheContext)> {
    set j | 0 <= j < |stores| && i < j :: (TrimSpace(stores[j].question), stores[j].ctx)
  }

  function KeyOf(h: Hash, pair: (string, CacheContext)): string {
    SemanticKey(h, h(pair.0), ContextHash(h, pair.1))
  }

  ghost function KeysOf(h: Hash, pairs: set<(string, CacheContext)>): set<string> {
    set p | p in pairs :: KeyOf(h, p)
  }

  lemma {:induction false} FewerKeys(h: Hash, pairs: set<(string, CacheContext)>)
    ensures |KeysOf(h, pairs)| <= |pairs|
    decreases |pairs|
  {
    hide KeyOf;
    if pairs != {} {
      var p :| p in pairs;
      FewerKeys(h, pairs - {p});
      assert KeysOf(h, pairs) == KeysOf(h, pairs - {p}) + {KeyOf(h, p)};
    }
  }

  lemma LaterKey(log: Log, i: int, key: string) returns (j: nat)
    requires key in LaterKeys(log, i)
    ensures i < j < |log| && log[j].key == key
  {
    j :| 0 <= j < |log| && i < j && log[j].key == key;
  }

  lemma LoggedAt(h: Hash, before: Log, stores: seq<Stored>, j: nat)
    requires j < |stores|
    ensures (before + Logged(h, stores))[|before| + j] == LoggedOne(h, stores[j])
  {
    hide LoggedOne;
  }

  lemma IsLaterPair(h: Hash, stores: seq<Stored>, i: nat, j: nat)
    requires i < j < |stores|
    ensures LoggedOne(h, stores[j]).key in KeysOf(h, LaterPairs(stores, i))
  {
    hide TrimSpace, SemanticKey, ContextHash;
    var p := (TrimSpace(stores[j].question), stores[j].ctx);
    assert p in LaterPairs(stores, i) && KeyOf(h, p) == LoggedOne(h, stores[j]).key;
  }

  /** No more keys than pairs have been Set since. */
  lemma FewerKeysThanPairs(h: Hash, before: Log, stores: seq<Stored>, i: nat)
    requires i < |stores|
    ensures |LaterKeys(before + Logged(h, stores), |before| + i)| <= |LaterPairs(stores, i)|
  {
    hide LaterKeys, LaterPairs, KeysOf, LoggedOne, Logged;
    var log, keys := before + Logged(h, stores), KeysOf(h, LaterPairs(stores, i));
    forall key | key in LaterKeys(log, |before| + i)
      ensures key in keys
    {
      var j := LaterKey(log, |before| + i, key);
      LoggedAt(h, before, stores, j - |before|);
      IsLaterPair(h, stores, i, j - |before|);
    }
    FewerKeys(h, LaterPairs(stores, i));
    SubsetIsSmaller(LaterKeys(log, |before| + i), keys);
  }

  lemma OtherPairOtherKey(h: Hash, a: Stored, b: Stored)
    requires Injective(h) && BarFree(h) && !SamePair(a, b)
    requires IsCode(a.ctx.language) && IsCode(b.ctx.language) && SameSetup(a.ctx, b.ctx)
    requires Readable(a.ctx) && Readable(b.ctx)
    ensures LoggedOne(h, a).key != LoggedOne(h, b).key
  {
    hide TrimSpace, SemanticKey, ContextHash, Readable, IsCode, SameSetup, SameContext, Injective, BarFree;
    if LoggedOne(h, a).key == LoggedOne(h, b).key {
      SemanticKeysAgreeIff(h, a.question, a.ctx, b.question, b.ctx);
      SameHashSameContext(h, a.ctx, b.ctx);
    }
  }

  /** The last Set under the question's key is its own. */
  lemma LastSetIsItsOwn(h: Hash, before: Log, stores: seq<Stored>, i: nat)
    requires Injective(h) && BarFree(h) && OfOneService(stores) && i < |stores|
    requires forall j | i < j < |stores| :: !SamePair(stores[j], stores[i])
    ensures LastSet(before + Logged(h, stores), LoggedOne(h, stores[i]).key) == |before| + i
  {
    hide LoggedOne, Logged, SamePair, Readable, SameSetup, IsCode, Injective, BarFree, LastSet;
    var log, key := before + Logged(h, stores), LoggedOne(h, stores[i]).key;
    LoggedAt(h, before, stores, i);
    forall j | |before| + i < j < |log|
      ensures log[j].key != key
    {
      LoggedAt(h, before, stores, j - |before|);
      OtherPairOtherKey(h, stores[j - |before|], stores[i]);
    }
  }

  lemma IsCandidate(h: Hash, before: Log, stores: seq<Stored>, i: nat, now: int, limits: Limits)
    requires Injective(h) && BarFree(h) && OfOneService(stores) && i < |stores|
    requires forall j | i < j < |stores| :: !SamePair(stores[j], stores[i])
    requires now <= stores[i].at + limits.ttl
    requires limits.max <= 0 || |LaterPairs(stores, i)| < limits.max
    ensures var log, key := before + Logged(h, stores), LoggedOne(h, stores[i]).key;
            && Candidate(log, key, now, limits, ContextHash(h, stores[i].ctx))
            && log[LastSet(log, key)].value.vector == stores[i].vector
  {
    hide TrimSpace, SemanticKey, ContextHash, LastSet, LaterPairs, LaterKeys, Logged, OfOneService, SamePair, Injective,
         BarFree;
    LastSetIsItsOwn(h, before, stores, i);
    FewerKeysThanPairs(h, before, stores, i);
    LoggedAt(h, before, stores, i);
  }

  /** A question is found again: in a cache that takes it, stored in a context and not stored again there, asked with
      its own vector within its time limit, and followed by fewer other pairs of question and context than there is
      room for, it hits with score 1 whatever else was stored before and since, for every threshold up to 1. */
  method AskAgain(cache: Cache, stores: seq<Stored>, i: nat, now: int) returns (out: Option<Output>, score: real)
    requires cache.Valid() && cache.cfg.semanticEnabled && Suitable(cache, stores, cache.clock)
    requires Injective(cache.hash) && BarFree(cache.hash) && OfOneService(stores) && cache.cfg.threshold <= 1.0
    requires i < |stores| && Norm2(stores[i].vector) != 0.0
    requires forall j | i < j < |stores| :: !SamePair(stores[j], stores[i])
    requires stores[|stores| - 1].at <= now <= stores[i].at + cache.cfg.semanticTTL
    requires cache.cfg.semanticMax <= 0 || |LaterPairs(stores, i)| < cache.cfg.semanticMax
    modifies cache
    ensures cache.Valid() && out.Some? && score == 1.0
  {
    hide Tracks, Increasing, TrimSpace, ContextHash, SemanticKey, IsSquareRoot, IsBestAnswer, Injective, BarFree,
         OfOneService, LaterPairs, SamePair, Norm2, Candidate, Logged, LastSet, LoggedOne;
    StoreAll(cache, stores);
    out, score := cache.GetSemantic(stores[i].vector, stores[i].question, stores[i].ctx, now);
    IsCandidate(cache.hash, old(cache.semanticLog), stores, i, now, cache.SemanticLimits());
    OwnVectorAlwaysHits(cache.sqrt, stores[i].vector, cache.cfg.threshold, cache.semanticLog, now,
                        cache.SemanticLimits(), LoggedOne(cache.hash, stores[i]).key,
                        ContextHash(cache.hash, stores[i].ctx), out, score);
  }
}
