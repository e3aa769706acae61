/** The per-client rate limiter of the question endpoint (backend/internal/http/middleware.go): one token bucket
    a client, dropped when the client has been away for two cleanup intervals. Time is in seconds, as a real. */
module RateLimiter {
  /** The middleware builds a limiter only for a positive rate and burst; the constructor replaces an interval
      that is not positive by one minute. */
  datatype Settings = Settings(qps: real, burst: nat, interval: real) {
    predicate Valid() { qps > 0.0 && burst > 0 && interval > 0.0 }

    /** Tokens gained between two moments. */
    function Gain(from: real, to: real): real { qps * (to - from) }
  }

  lemma GainIsAdditive(c: Settings, a: real, b: real, d: real)
    requires c.Valid()
    ensures c.Gain(a, b) + c.Gain(b, d) == c.Gain(a, d)
    ensures a <= b ==> c.Gain(a, b) >= 0.0
  {
  }

  // ----- The token bucket (the standard one of golang.org/x/time/rate) -----

  datatype Bucket = Bucket(tokens: real, last: real)

  function FullBucket(c: Settings, now: real): Bucket { Bucket(c.burst as real, now) }

  /** What the bucket holds at `now`; a clock that has gone back adds nothing. */
  function TokensAt(c: Settings, b: Bucket, now: real): real {
    var tokens := b.tokens + c.Gain(if now < b.last then now else b.last, now);
    if tokens > c.burst as real then c.burst as real else tokens
  }

  /** Takes one token if there is one; a refused request leaves the bucket as it was. */
  function Take(c: Settings, b: Bucket, now: real): (Bucket, bool) {
    var tokens := TokensAt(c, b, now) - 1.0;
    if tokens >= 0.0 && c.burst >= 1 then (Bucket(tokens, now), true) else (b, false)
  }

  predicate Sound(c: Settings, b: Bucket, now: real) {
    0.0 <= b.tokens <= c.burst as real && b.last <= now
  }

  lemma TakeSpendsOne(c: Settings, b: Bucket, now: real)
    requires c.Valid() && Sound(c, b, now)
    ensures Sound(c, Take(c, b, now).0, now)
    ensures TokensAt(c, Take(c, b, now).0, now) == TokensAt(c, b, now) - if Take(c, b, now).1 then 1.0 else 0.0
    ensures Take(c, b, now).1 <==> TokensAt(c, b, now) >= 1.0
  {
    GainIsAdditive(c, b.last, now, now);
  }

  lemma TokensGrow(c: Settings, b: Bucket, from: real, to: real)
    requires c.Valid() && Sound(c, b, from) && from <= to
    ensures 0.0 <= TokensAt(c, b, from) <= TokensAt(c, b, to) <= TokensAt(c, b, from) + c.Gain(from, to)
    ensures TokensAt(c, b, to) <= c.burst as real
  {
    GainIsAdditive(c, b.last, from, to);
    GainIsAdditive(c, from, to, to);
  }

  // ----- The limiter, and the one that never forgets a client -----

  datatype Visitor = Visitor(bucket: Bucket, lastSeen: real)
  datatype State<K> = State(visitors: map<K, Visitor>, lastCleanup: real)
  datatype Request<K> = Request(key: K, at: real)

  predicate IsStale(c: Settings, v: Visitor, now: real) { now - v.lastSeen > c.interval * 2.0 }

  function Swept<K>(c: Settings, s: State<K>, now: real): State<K> {
    if now - s.lastCleanup >= c.interval
    then State(map k | k in s.visitors && !IsStale(c, s.visitors[k], now) :: s.visitors[k], now)
    else s
  }

  function Step<K>(c: Settings, s: State<K>, r: Request<K>): (State<K>, bool) {
    var swept := Swept(c, s, r.at);
    var bucket := if r.key in swept.visitors then swept.visitors[r.key].bucket else FullBucket(c, r.at);
    var (left, ok) := Take(c, bucket, r.at);
    (State(swept.visitors[r.key := Visitor(left, r.at)], swept.lastCleanup), ok)
  }

  /** The reference: one bucket a client, kept for ever. */
  function ReferenceStep<K>(c: Settings, buckets: map<K, Bucket>, r: Request<K>): (map<K, Bucket>, bool) {
    var bucket := if r.key in buckets then buckets[r.key] else FullBucket(c, r.at);
    var (left, ok) := Take(c, bucket, r.at);
    (buckets[r.key := left], ok)
  }

  class Limiter<K(==)> {
    const settings: Settings
    var visitors: map<K, Visitor>
    var lastCleanup: real

    constructor (qps: real, burst: nat, cleanupInterval: real, now: real)
      ensures settings == Settings(qps, burst, if cleanupInterval <= 0.0 then 60.0 else cleanupInterval)
      ensures Contents() == State(map[], now)
    {
      var interval := cleanupInterval;
      if interval <= 0.0 {
        interval := 60.0;
      }
      settings := Settings(qps, burst, interval);
      visitors, lastCleanup := map[], now;
    }

    function Contents(): State<K>
      reads this
    {
      State(visitors, lastCleanup)
    }

    method Allow(key: K, now: real) returns (ok: bool)
      modifies this
      ensures (Contents(), ok) == Step(settings, old(Contents()), Request(key, now))
    {
      if now - lastCleanup >= settings.interval {
        Sweep(now);
        lastCleanup := now;
      }
      if key !in visitors {
        visitors := visitors[key := Visitor(FullBucket(settings, now), now)];
      }
      var (left, granted) := Take(settings, visitors[key].bucket, now);
      visitors := visitors[key := Visitor(left, now)];
      assert Contents().visitors == Step(settings, old(Contents()), Request(key, now)).0.visitors;
      return granted;
    }

    method Sweep(now: real)
      modifies this`visitors
      ensures visitors == map k | k in old(visitors) && !IsStale(settings, old(visitors)[k], now) :: old(visitors)[k]
    {
      var todo := visitors.Keys;
      while todo != {}
        invariant todo <= old(visitors).Keys
        invariant visitors.Keys
                  == set k | k in old(visitors) && (k in todo || !IsStale(settings, old(visitors)[k], now))
        invariant forall k | k in visitors :: visitors[k] == old(visitors)[k]
        decreases |todo|
      {
        var k :| k in todo;
        if IsStale(settings, visitors[k], now) {
          visitors := visitors - {k};
        }
        todo := todo - {k};
      }
    }
  }

  // ----- Whole runs -----

  predicate InTimeOrder<K>(trace: seq<Request<K>>, start: real) {
    && (forall i | 0 <= i < |trace| :: start <= trace[i].at)
    && (forall i, j | 0 <= i < j < |trace| :: trace[i].at <= trace[j].at)
  }

  function Run<K>(c: Settings, s: State<K>, trace: seq<Request<K>>): (r: (State<K>, seq<bool>))
    ensures |r.1| == |trace|
    decreases |trace|
  {
    if trace == [] then (s, [])
    else
      var (next, ok) := Step(c, s, trace[0]);
      var (end, oks) := Run(c, next, trace[1..]);
      (end, [ok] + oks)
  }

  function ReferenceRun<K>(c: Settings, buckets: map<K, Bucket>, trace: seq<Request<K>>)
    : (r: (map<K, Bucket>, seq<bool>))
    ensures |r.1| == |trace|
    decreases |trace|
  {
    if trace == [] then (buckets, [])
    else
      var (next, ok) := ReferenceStep(c, buckets, trace[0]);
      var (end, oks) := ReferenceRun(c, next, trace[1..]);
      (end, [ok] + oks)
  }

  /** A remembered client has the reference bucket; a forgotten one would find its bucket full. */
  ghost predicate Agrees<K(!new)>(c: Settings, s: State<K>, buckets: map<K, Bucket>, now: real) {
    forall k | k in s.visitors || k in buckets ::
      && k in buckets && Sound(c, buckets[k], now)
      && (k in s.visitors ==> s.visitors[k].bucket == buckets[k] && buckets[k].last <= s.visitors[k].lastSeen <= now)
      && (k !in s.visitors ==> TokensAt(c, buckets[k], now) == c.burst as real)
  }

  lemma TimePasses<K(!new)>(c: Settings, s: State<K>, buckets: map<K, Bucket>, from: real, to: real)
    requires c.Valid() && Agrees(c, s, buckets, from) && from <= to
    ensures Agrees(c, s, buckets, to)
  {
    forall k | k in buckets
      ensures TokensAt(c, buckets[k], from) <= TokensAt(c, buckets[k], to) <= c.burst as real
    {
      TokensGrow(c, buckets[k], from, to);
    }
    hide TokensAt;
  }

  lemma StaleIsFull(c: Settings, b: Bucket, lastSeen: real, now: real)
    requires c.Valid() && c.burst as real <= c.qps * (c.interval * 2.0)
    requires Sound(c, b, now) && b.last <= lastSeen && now - lastSeen > c.interval * 2.0
    ensures TokensAt(c, b, now) == c.burst as real
  {
    assert now - b.last > c.interval * 2.0;
    assert c.qps * (now - b.last) >= c.qps * (c.interval * 2.0);
  }

  lemma SweepAgrees<K(!new)>(c: Settings, s: State<K>, buckets: map<K, Bucket>, now: real)
    requires c.Valid() && c.burst as real <= c.qps * (c.interval * 2.0) && Agrees(c, s, buckets, now)
    ensures Agrees(c, Swept(c, s, now), buckets, now)
  {
    forall k | k in s.visitors && IsStale(c, s.visitors[k], now)
      ensures TokensAt(c, buckets[k], now) == c.burst as real
    {
      StaleIsFull(c, buckets[k], s.visitors[k].lastSeen, now);
    }
    hide TokensAt;
  }

  lemma StepAgrees<K(!new)>(c: Settings, s: State<K>, buckets: map<K, Bucket>, r: Request<K>)
    requires c.Valid() && c.burst as real <= c.qps * (c.interval * 2.0) && Agrees(c, s, buckets, r.at)
    ensures Step(c, s, r).1 == ReferenceStep(c, buckets, r).1
    ensures Agrees(c, Step(c, s, r).0, ReferenceStep(c, buckets, r).0, r.at)
  {
    SweepAgrees(c, s, buckets, r.at);
    TakeSpendsOne(c, FullBucket(c, r.at), r.at);
    if r.key in buckets {
      TakeSpendsOne(c, buckets[r.key], r.at);
    }
    hide Swept;
  }

  lemma {:induction false} RunAgrees<K(!new)>(c: Settings, s: State<K>, buckets: map<K, Bucket>, trace: seq<Request<K>>,
                                              start: real)
    requires c.Valid() && c.burst as real <= c.qps * (c.interval * 2.0) && Agrees(c, s, buckets, start)
    requires InTimeOrder(trace, start)
    ensures Run(c, s, trace).1 == ReferenceRun(c, buckets, trace).1
    decreases |trace|
  {
    hide Agrees, Step, ReferenceStep;
    if trace != [] {
      TimePasses(c, s, buckets, start, trace[0].at);
      StepAgrees(c, s, buckets, trace[0]);
      RunAgrees(c, Step(c, s, trace[0]).0, ReferenceStep(c, buckets, trace[0]).0, trace[1..], trace[0].at);
    }
  }

  // ----- How much one client can get -----

  function Grants<K(==)>(trace: seq<Request<K>>, oks: seq<bool>, key: K): nat
    requires |trace| == |oks|
  {
    if trace == [] then 0
    else (if trace[0].key == key && oks[0] then 1 else 0) + Grants(trace[1..], oks[1..], key)
  }

  ghost predicate AllSound<K(!new)>(c: Settings, buckets: map<K, Bucket>, now: real) {
    forall k | k in buckets :: Sound(c, buckets[k], now)
  }

  function Available<K>(c: Settings, buckets: map<K, Bucket>, key: K, now: real): real {
    if key in buckets then TokensAt(c, buckets[key], now) else c.burst as real
  }

  lemma ReferenceStepSpends<K(!new)>(c: Settings, buckets: map<K, Bucket>, r: Request<K>, start: real, key: K)
    requires c.Valid() && AllSound(c, buckets, start) && start <= r.at
    ensures var (next, ok) := ReferenceStep(c, buckets, r);
            && AllSound(c, next, r.at)
            && 0.0 <= Available(c, next, key, r.at) + (if r.key == key && ok then 1.0 else 0.0)
                   <= Available(c, buckets, key, start) + c.Gain(start, r.at)
            && Available(c, next, key, r.at) >= 0.0
  {
    GainIsAdditive(c, start, r.at, r.at);
    if key in buckets {
      TokensGrow(c, buckets[key], start, r.at);
    }
    TakeSpendsOne(c, FullBucket(c, r.at), r.at);
    if r.key in buckets {
      TakeSpendsOne(c, buckets[r.key], r.at);
    }
    hide TokensAt;
  }

  lemma {:induction false} GrantsAreBounded<K(!new)>(c: Settings, buckets: map<K, Bucket>, trace: seq<Request<K>>,
                                                     start: real, end: real, key: K)
    requires c.Valid() && AllSound(c, buckets, start) && InTimeOrder(trace, start)
    requires start <= end && (trace != [] ==> trace[|trace| - 1].at <= end)
    ensures Grants(trace, ReferenceRun(c, buckets, trace).1, key) as real
            <= Available(c, buckets, key, start) + c.Gain(start, end)
    decreases |trace|
  {
    hide AllSound, Available, ReferenceStep;
    GainIsAdditive(c, start, end, end);
    if trace == [] {
      NothingOwed(c, buckets, start, key);
    } else {
      var (next, ok) := ReferenceStep(c, buckets, trace[0]);
      ReferenceStepSpends(c, buckets, trace[0], start, key);
      GrantsAreBounded(c, next, trace[1..], trace[0].at, end, key);
      GainIsAdditive(c, start, trace[0].at, end);
    }
  }

  lemma NothingOwed<K(!new)>(c: Settings, buckets: map<K, Bucket>, now: real, key: K)
    requires c.Valid() && AllSound(c, buckets, now)
    ensures 0.0 <= Available(c, buckets, key, now) <= c.burst as real
  {
    if key in buckets {
      TokensGrow(c, buckets[key], now, now);
    }
  }

  lemma StaysSound<K(!new)>(c: Settings, buckets: map<K, Bucket>, from: real, to: real)
    requires AllSound(c, buckets, from) && from <= to
    ensures AllSound(c, buckets, to)
  {
  }

  lemma RestInOrder<K>(trace: seq<Request<K>>, start: real)
    requires trace != [] && InTimeOrder(trace, start)
    ensures start <= trace[0].at && InTimeOrder(trace[1..], trace[0].at)
    ensures forall i | 0 <= i < |trace| :: trace[i].at <= trace[|trace| - 1].at
  {
  }

  lemma RunUnfolds<K(!new)>(c: Settings, buckets: map<K, Bucket>, trace: seq<Request<K>>)
    requires trace != []
    ensures var (next, ok) := ReferenceStep(c, buckets, trace[0]);
            var (end, oks) := ReferenceRun(c, next, trace[1..]);
            ReferenceRun(c, buckets, trace) == (end, [ok] + oks)
  {
    hide ReferenceStep;
  }

  lemma NothingRuns<K(!new)>(c: Settings, buckets: map<K, Bucket>)
    ensures ReferenceRun(c, buckets, []) == (buckets, [])
  {
  }

  lemma {:induction false} ReferenceRunSplits<K(!new)>(c: Settings, buckets: map<K, Bucket>, before: seq<Request<K>>,
                                                       window: seq<Request<K>>,
                                                       start: real, now: real)
    requires c.Valid() && AllSound(c, buckets, start) && InTimeOrder(before, start)
    requires start <= now && (before != [] ==> before[|before| - 1].at <= now)
    ensures var (mid, oks) := ReferenceRun(c, buckets, before);
            AllSound(c, mid, now) && ReferenceRun(c, buckets, before + window).1 == oks + ReferenceRun(c, mid, window).1
    decreases |before|
  {
    hide ReferenceRun, AllSound, ReferenceStep, InTimeOrder;
    if before == [] {
      NothingRuns(c, buckets);
      assert before + window == window;
      StaysSound(c, buckets, start, now);
    } else {
      RestInOrder(before, start);
      var (next, ok) := ReferenceStep(c, buckets, before[0]);
      ReferenceStepSpends(c, buckets, before[0], start, before[0].key);
      ReferenceRunSplits(c, next, before[1..], window, before[0].at, now);
      RunUnfolds(c, buckets, before);
      RunUnfolds(c, buckets, before + window);
      assert (before + window)[1..] == before[1..] + window;
      var first := ReferenceRun(c, next, before[1..]).1;
      var rest := ReferenceRun(c, ReferenceRun(c, buckets, before).0, window).1;
      assert [ok] + (first + rest) == ([ok] + first) + rest;
    }
  }

  lemma ReferenceWindow<K(!new)>(c: Settings, buckets: map<K, Bucket>, t0: real, before: seq<Request<K>>,
                                 window: seq<Request<K>>, key: K)
    requires c.Valid() && AllSound(c, buckets, t0) && window != [] && InTimeOrder(before + window, t0)
    ensures var oks := ReferenceRun(c, buckets, before + window).1;
            Grants(window, oks[|before|..], key) as real
            <= c.burst as real + c.Gain(window[0].at, window[|window| - 1].at)
  {
    hide ReferenceRun, Grants, AllSound, Available, InTimeOrder;
    var first, last := window[0].at, window[|window| - 1].at;
    WindowsAreInOrder(before, window, t0);
    ReferenceRunSplits(c, buckets, before, window, t0, first);
    var (mid, oks) := ReferenceRun(c, buckets, before);
    GrantsAreBounded(c, mid, window, first, last, key);
    NothingOwed(c, mid, first, key);
    assert (oks + ReferenceRun(c, mid, window).1)[|before|..] == ReferenceRun(c, mid, window).1;
  }

  /** In any window of a run, of length `w`, one client is granted at most `burst + qps * w` requests. */
  lemma WindowIsBounded<K(!new)>(c: Settings, t0: real, before: seq<Request<K>>, window: seq<Request<K>>, key: K)
    requires c.Valid() && c.burst as real <= c.qps * (c.interval * 2.0)
    requires window != [] && InTimeOrder(before + window, t0)
    ensures var oks := Run(c, State(map[], t0), before + window).1;
            Grants(window, oks[|before|..], key) as real
            <= c.burst as real + c.qps * (window[|window| - 1].at - window[0].at)
  {
    hide Run, ReferenceRun, Grants, InTimeOrder;
    RunAgrees(c, State(map[], t0), map[], before + window, t0);
    ReferenceWindow(c, map[], t0, before, window, key);
  }

  lemma WindowsAreInOrder<K>(before: seq<Request<K>>, window: seq<Request<K>>, t0: real)
    requires window != [] && InTimeOrder(before + window, t0)
    ensures InTimeOrder(before, t0) && InTimeOrder(window, window[0].at) && t0 <= window[0].at
    ensures before != [] ==> before[|before| - 1].at <= window[0].at
    ensures window[0].at <= window[|window| - 1].at
  {
    var all := before + window;
    assert forall i | 0 <= i < |before| :: all[i] == before[i];
    assert forall i | 0 <= i < |window| :: all[|before| + i] == window[i];
  }

  // ----- Exactly when forgetting clients cannot be noticed -----

  function Burst<K>(key: K, at: real, n: nat): (r: seq<Request<K>>)
    ensures |r| == n && forall i | 0 <= i < n :: r[i] == Request(key, at)
  {
    if n == 0 then [] else [Request(key, at)] + Burst(key, at, n - 1)
  }

  function BucketOf<K>(c: Settings, s: State<K>, key: K, now: real): Bucket {
    if key in s.visitors then s.visitors[key].bucket else FullBucket(c, now)
  }

  /** While the bucket lasts, all of a burst is granted. */
  lemma {:induction false} BurstIsGranted<K(!new)>(c: Settings, s: State<K>, key: K, at: real, n: nat)
    requires c.Valid() && Swept(c, s, at).lastCleanup == at
    requires var b := BucketOf(c, Swept(c, s, at), key, at); Sound(c, b, at) && TokensAt(c, b, at) >= n as real
    decreases n
    ensures var (end, oks) := Run(c, s, Burst(key, at, n));
            && (forall i | 0 <= i < n :: oks[i])
            && (n > 0 ==> end.lastCleanup == at && key in end.visitors && end.visitors[key].lastSeen == at)
  {
    if n > 0 {
      var b := BucketOf(c, Swept(c, s, at), key, at);
      TakeSpendsOne(c, b, at);
      var next := Step(c, s, Request(key, at)).0;
      assert Swept(c, next, at) == next;
      assert Burst(key, at, n)[1..] == Burst(key, at, n - 1);
      BurstIsGranted(c, next, key, at, n - 1);
    }
  }

  lemma {:induction false} RunSplits<K(!new)>(c: Settings, s: State<K>, a: seq<Request<K>>, b: seq<Request<K>>)
    ensures Run(c, s, a + b).1 == Run(c, s, a).1 + Run(c, Run(c, s, a).0, b).1
    decreases |a|
  {
    hide Step;
    if a == [] {
      assert a + b == b;
    } else {
      assert (a + b)[1..] == a[1..] + b;
      RunSplits(c, Step(c, s, a[0]).0, a[1..], b);
    }
  }

  lemma {:induction false} AllGrants<K(!new)>(trace: seq<Request<K>>, oks: seq<bool>, key: K)
    requires |trace| == |oks| && forall i | 0 <= i < |trace| :: trace[i].key == key && oks[i]
    ensures Grants(trace, oks, key) == |trace|
    decreases |trace|
  {
    if trace != [] {
      AllGrants(trace[1..], oks[1..], key);
    }
  }

  /** Two bursts, the second as soon as the client has been forgotten. */
  function TwoBursts<K>(c: Settings, key: K, t0: real): seq<Request<K>>
    requires c.Valid()
  {
    Burst(key, t0, c.burst) + Burst(key, t0 + (c.interval * 2.0 + c.burst as real / c.qps) / 2.0, c.burst)
  }

  lemma TwoBurstsPass<K(!new)>(c: Settings, key: K, t0: real)
    requires c.Valid() && c.burst as real > c.qps * (c.interval * 2.0)
    ensures Grants(TwoBursts(c, key, t0), Run(c, State(map[], t0), TwoBursts(c, key, t0)).1, key) == 2 * c.burst
  {
    var t1 := t0 + (c.interval * 2.0 + c.burst as real / c.qps) / 2.0;
    HalfwayTime(c, t0, t1);
    var start: State<K> := State(map[], t0);
    var first, second := Burst(key, t0, c.burst), Burst(key, t1, c.burst);
    GainIsAdditive(c, t0, t0, t0);
    BurstIsGranted(c, start, key, t0, c.burst);
    var mid := Run(c, start, first).0;
    GainIsAdditive(c, t1, t1, t1);
    assert key !in Swept(c, mid, t1).visitors;
    BurstIsGranted(c, mid, key, t1, c.burst);
    RunSplits(c, start, first, second);
    hide Run;
    AllGrants(first + second, Run(c, start, first + second).1, key);
  }

  lemma HalfwayTime(c: Settings, t0: real, t1: real)
    requires c.Valid() && c.burst as real > c.qps * (c.interval * 2.0)
    requires t1 == t0 + (c.interval * 2.0 + c.burst as real / c.qps) / 2.0
    ensures t1 - t0 > c.interval * 2.0 && c.qps * (t1 - t0) < c.burst as real
  {
    var full := c.burst as real / c.qps;
    assert c.qps * full == c.burst as real;
    assert full > c.interval * 2.0;
  }

  lemma TwoBurstsDoNotPassTheReference<K(!new)>(c: Settings, key: K, t0: real)
    requires c.Valid() && c.burst as real > c.qps * (c.interval * 2.0)
    ensures InTimeOrder(TwoBursts(c, key, t0), t0)
    ensures Grants(TwoBursts(c, key, t0), ReferenceRun(c, map[], TwoBursts(c, key, t0)).1, key) < 2 * c.burst
  {
    var t1 := t0 + (c.interval * 2.0 + c.burst as real / c.qps) / 2.0;
    HalfwayTime(c, t0, t1);
    GrantsAreBounded(c, map[], TwoBursts(c, key, t0), t0, t1, key);
  }

  /** Forgetting clients never changes a decision, in any run in time order, exactly when a bucket refills within
      two cleanup intervals. */
  lemma EvictionIsUnobservableIff<K(!new)>(c: Settings, t0: real, key: K)
    requires c.Valid()
    ensures (forall trace: seq<Request<K>> | InTimeOrder(trace, t0) ::
               Run(c, State(map[], t0), trace).1 == ReferenceRun(c, map[], trace).1)
            <==> c.burst as real <= c.qps * (c.interval * 2.0)
  {
    if c.burst as real <= c.qps * (c.interval * 2.0) {
      forall trace: seq<Request<K>> | InTimeOrder(trace, t0)
        ensures Run(c, State(map[], t0), trace).1 == ReferenceRun(c, map[], trace).1
      {
        RunAgrees(c, State(map[], t0), map[], trace, t0);
      }
    } else {
      TwoBurstsPass(c, key, t0);
      TwoBurstsDoNotPassTheReference(c, key, t0);
    }
  }

  /** What a window of a run may grant: no more than a full bucket and what it gains meanwhile. */
  ghost predicate IsBounded<K(!new)>(c: Settings, t0: real, before: seq<Request<K>>, window: seq<Request<K>>, key: K)
    requires window != []
  {
    Grants(window, Run(c, State(map[], t0), before + window).1[|before|..], key) as real
    <= c.burst as real + c.Gain(window[0].at, window[|window| - 1].at)
  }

  lemma TwoBurstTimes<K(!new)>(c: Settings, key: K, t0: real)
    requires c.Valid() && c.burst as real > c.qps * (c.interval * 2.0)
    ensures var window := TwoBursts(c, key, t0);
            window != [] && c.Gain(window[0].at, window[|window| - 1].at) < c.burst as real
  {
    HalfwayTime(c, t0, t0 + (c.interval * 2.0 + c.burst as real / c.qps) / 2.0);
  }

  lemma TwoBurstsAreUnbounded<K(!new)>(c: Settings, key: K, t0: real)
    requires c.Valid() && c.burst as real > c.qps * (c.interval * 2.0)
    ensures TwoBursts(c, key, t0) != [] && InTimeOrder(TwoBursts(c, key, t0), t0)
    ensures !IsBounded(c, t0, [], TwoBursts(c, key, t0), key)
  {
    hide Run, Grants, TwoBursts, InTimeOrder;
    TwoBurstTimes(c, key, t0);
    TwoBurstsPass(c, key, t0);
    TwoBurstsDoNotPassTheReference(c, key, t0);
    var window := TwoBursts(c, key, t0);
    assert [] + window == window;
    assert Run(c, State(map[], t0), window).1[0..] == Run(c, State(map[], t0), window).1;
  }

  /** Every window of every run in time order stays within that bound exactly when a bucket refills within two cleanup
      intervals; otherwise a client that is forgotten in time starts afresh. */
  lemma WindowIsBoundedIff<K(!new)>(c: Settings, t0: real, key: K)
    requires c.Valid()
    ensures (forall before: seq<Request<K>>, window | window != [] && InTimeOrder(before + window, t0) ::
               IsBounded(c, t0, before, window, key))
            <==> c.burst as real <= c.qps * (c.interval * 2.0)
  {
    hide Run, Grants, InTimeOrder;
    if c.burst as real <= c.qps * (c.interval * 2.0) {
      forall before: seq<Request<K>>, window | window != [] && InTimeOrder(before + window, t0)
        ensures IsBounded(c, t0, before, window, key)
      {
        WindowIsBounded(c, t0, before, window, key);
      }
    } else {
      TwoBurstsAreUnbounded(c, key, t0);
      assert [] + TwoBursts(c, key, t0) == TwoBursts(c, key, t0);
      hide IsBounded;
    }
  }
}
