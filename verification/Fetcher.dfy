/** Fetching one page (fetchURL, waitForNextRequest and retryDelay in backend/cmd/data-fetch/main.go): the cache,
    then paced attempts with a back-off in between. Times and durations are in nanoseconds. */
module Fetcher {
  import opened Documents
  import opened DiskCache

  const MILLISECOND := 1_000_000

  // ----- The back-off in 64-bit arithmetic -----

  const INT64_SPAN := 0x1_0000_0000_0000_0000
  const INT64_MAX := 0x7FFF_FFFF_FFFF_FFFF

  function Wrap64(x: int): int { (x + INT64_MAX + 1) % INT64_SPAN - INT64_MAX - 1 }

  function Pow2(n: nat): (r: nat)
    ensures r >= 1
  {
    if n == 0 then 1 else 2 * Pow2(n - 1)
  }

  /** `SECOND << attempt` for a signed 64-bit integer: bits shifted out at the top are lost. */
  function ShiftedSecond(attempt: nat): int {
    if attempt == 0 then SECOND else Wrap64(2 * ShiftedSecond(attempt - 1))
  }

  function RetryDelay(attempt: nat, retryAfter: int, backoffMax: int): int {
    if retryAfter > 0 then if retryAfter > backoffMax then backoffMax else retryAfter
    else if ShiftedSecond(attempt) > backoffMax then backoffMax else ShiftedSecond(attempt)
  }

  function Min(a: int, b: int): int { if a <= b then a else b }

  function NotNegative(a: int): nat { if a < 0 then 0 else a }

  lemma WrapDoubles(x: int)
    ensures Wrap64(2 * Wrap64(x)) == Wrap64(2 * x)
    ensures Wrap64(2 * x) % 2 == 0
  {
    var k := (x + INT64_MAX + 1) / INT64_SPAN;
    assert Wrap64(x) == x - k * INT64_SPAN;
    WrapIgnores(2 * x, 2 * k);
    WrapIgnores(2 * x, (2 * x + INT64_MAX + 1) / INT64_SPAN);
  }

  lemma WrapIgnores(x: int, k: int)
    ensures Wrap64(x - k * INT64_SPAN) == Wrap64(x)
  {
    var y := x + INT64_MAX + 1;
    var q := y / INT64_SPAN;
    assert y - k * INT64_SPAN == (q - k) * INT64_SPAN + y % INT64_SPAN;
  }

  /** Repeated shifting is multiplication by a power of two, wrapped once. */
  lemma {:induction false} ShiftIsAWrappedPower(attempt: nat)
    ensures ShiftedSecond(attempt) == Wrap64(SECOND * Pow2(attempt))
    ensures ShiftedSecond(attempt) % 2 == 0
  {
    if attempt > 0 {
      ShiftIsAWrappedPower(attempt - 1);
      WrapDoubles(SECOND * Pow2(attempt - 1));
    }
  }

  lemma {:induction false} PowersGrow(a: nat, b: nat)
    requires a <= b
    ensures Pow2(a) <= Pow2(b) && Pow2(b) == Pow2(a) * Pow2(b - a)
    decreases b
  {
    if a < b {
      PowersGrow(a, b - 1);
    }
  }

  lemma PowerOf33()
    ensures Pow2(33) == 0x2_0000_0000
  {
    assert Pow2(8) == 0x100;
    assert Pow2(16) == 0x1_0000;
    assert Pow2(24) == 0x100_0000;
    assert Pow2(32) == 0x1_0000_0000;
  }

  /** A server that says when to come back is waited for just as long, up to the maximum. */
  lemma RetryAfterIsHonoured(attempt: nat, retryAfter: int, backoffMax: int)
    requires retryAfter >= 1
    ensures RetryDelay(attempt, retryAfter, backoffMax) == Min(retryAfter, backoffMax)
  {
    hide ShiftedSecond;
  }

  /** Without Retry-After, the delay is `2^attempt` seconds cut at the maximum, for every maximum, exactly up to
      attempt 33; from 34 on the shift overflows. */
  lemma RetryDelayIsExactIff(attempt: nat)
    ensures (forall backoffMax | 0 < backoffMax <= INT64_MAX ::
               RetryDelay(attempt, 0, backoffMax) == Min(SECOND * Pow2(attempt), backoffMax))
            <==> attempt <= 33
  {
    ShiftIsAWrappedPower(attempt);
    PowersFit(attempt);
    hide Pow2, ShiftedSecond;
    if attempt > 33 {
      assert RetryDelay(attempt, 0, INT64_MAX) != Min(SECOND * Pow2(attempt), INT64_MAX);
    }
  }

  lemma PowersFit(attempt: nat)
    ensures SECOND * Pow2(attempt) <= INT64_MAX <==> attempt <= 33
  {
    PowerOf33();
    if attempt <= 33 {
      PowersGrow(attempt, 33);
    } else {
      assert Pow2(34) == 2 * Pow2(33);
      PowersGrow(34, attempt);
    }
    hide Pow2;
  }

  /** At attempt 34 the delay is negative, and from attempt 55 on it is zero: there is no back-off at all. */
  lemma LateAttemptsDoNotWait(attempt: nat, backoffMax: int)
    requires backoffMax > 0
    ensures RetryDelay(34, 0, backoffMax) < 0
    ensures attempt >= 55 ==> RetryDelay(attempt, 0, backoffMax) == 0
  {
    hide Pow2, ShiftedSecond;
    ShiftOf34();
    if attempt >= 55 {
      ShiftIsAWrappedPower(attempt);
      SecondTimesPowerOf55(attempt - 55);
      WrapIgnores(0, -1953125 * Pow2(attempt - 55));
    }
  }

  lemma ShiftOf34()
    ensures ShiftedSecond(34) < 0
  {
    ShiftIsAWrappedPower(34);
    PowerOf33();
    assert Pow2(34) == 0x4_0000_0000;
    hide Pow2, ShiftedSecond;
  }

  lemma SecondTimesPowerOf55(n: nat)
    ensures SECOND * Pow2(55 + n) == 1953125 * Pow2(n) * INT64_SPAN
  {
    PowerOf33();
    PowersGrow(33, 55);
    assert Pow2(22) == 0x40_0000;
    PowersGrow(55, 55 + n);
  }

  // ----- Attempts -----

  datatype Reply<B> = Got(body: B, contentType: string) | Failure(status: int, retryAfter: int)

  predicate Retryable<B>(r: Reply<B>) { r.Failure? && (r.status == 429 || r.status in {500, 502, 503, 504}) }

  /** What the fetcher cannot choose: the answer to the n-th attempt, the time that passes at each reading of the
      clock, the random jitter, and the moment the context is cancelled, if it is. */
  datatype World<!U, !B> = World(answer: (U, nat) -> Reply<B>, passing: nat -> nat, random: nat -> nat,
                                 cancelledAt: Option<int>) {
    function Answer(url: U, n: nat): Reply<B> { answer(url, n) }
    function Passing(n: nat): nat { passing(n) }

    function Jitter(n: nat): (r: int)
      ensures 100 * MILLISECOND <= r <= 250 * MILLISECOND
    {
      (random(n) % 151 + 100) * MILLISECOND
    }
  }

  /** The attempt that ends a fetch: the first one that succeeds or fails for good, or else the last one allowed. */
  function Decisive<U, B>(w: World<U, B>, url: U, first: nat, retries: nat): (k: nat)
    ensures first <= k <= first + retries
    decreases retries
  {
    if retries == 0 || !Retryable(w.Answer(url, first)) then first else Decisive(w, url, first + 1, retries - 1)
  }

  /** Too many requests, and the server errors that may pass. */
  predicate MayPass<B>(r: Reply<B>) {
    match r
    case Got(_, _) => false
    case Failure(status, _) => status in {429, 500, 502, 503, 504}
  }

  lemma {:induction false} DecisiveIs<U, B>(w: World<U, B>, url: U, first: nat, retries: nat)
    ensures first <= Decisive(w, url, first, retries) <= first + retries
    ensures forall i | first <= i < Decisive(w, url, first, retries) :: MayPass(w.Answer(url, i))
    ensures Decisive(w, url, first, retries) < first + retries ==>
              !MayPass(w.Answer(url, Decisive(w, url, first, retries)))
    decreases retries
  {
    if retries > 0 && Retryable(w.Answer(url, first)) {
      DecisiveIs(w, url, first + 1, retries - 1);
    }
  }

  lemma {:induction false} DecisiveAhead<U, B>(w: World<U, B>, url: U, first: nat, retries: nat, done: nat)
    requires done <= retries && forall i | first <= i < first + done :: Retryable(w.Answer(url, i))
    ensures Decisive(w, url, first, retries) == Decisive(w, url, first + done, retries - done)
    decreases done
  {
    if done > 0 {
      DecisiveAhead(w, url, first + 1, retries - 1, done - 1);
    }
  }

  /** The back-off after the first `n` failed attempts. */
  function Backoff<U, B>(w: World<U, B>, url: U, first: nat, n: nat, backoffMax: int): nat {
    if n == 0 then 0
    else
      var r := w.Answer(url, first + n - 1);
      Backoff(w, url, first, n - 1, backoffMax)
      + NotNegative(RetryDelay(n - 1, if r.Failure? then r.retryAfter else 0, backoffMax))
  }

  lemma BackoffAfterOneMore<U, B>(w: World<U, B>, url: U, first: nat, n: nat, backoffMax: int)
    requires w.Answer(url, first + n).Failure?
    ensures Backoff(w, url, first, n + 1, backoffMax)
            == Backoff(w, url, first, n, backoffMax)
               + NotNegative(RetryDelay(n, w.Answer(url, first + n).retryAfter, backoffMax))
    ensures Backoff(w, url, first, 0, backoffMax) == 0
  {
  }

  lemma {:induction false} BackoffIsBounded<U, B>(w: World<U, B>, url: U, first: nat, n: nat, backoffMax: nat)
    ensures Backoff(w, url, first, n, backoffMax) <= n * backoffMax
  {
    if n > 0 {
      hide ShiftedSecond;
      BackoffIsBounded(w, url, first, n - 1, backoffMax);
      assert n * backoffMax == (n - 1) * backoffMax + backoffMax;
    }
  }

  lemma MoreTakesLonger(a: nat, b: nat, each: nat)
    requires a <= b
    ensures a * each <= b * each
  {
  }

  // ----- Pacing -----

  ghost predicate Paced(stamps: seq<int>, gap: int) {
    forall i | 0 < i < |stamps| :: stamps[i] - stamps[i - 1] >= gap
  }

  /** Each request leaves some time after it is stamped, and before the next one is. */
  ghost predicate LeaveInTurn(stamps: seq<int>, starts: seq<int>) {
    && |stamps| == |starts|
    && (forall i | 0 <= i < |starts| :: stamps[i] <= starts[i])
    && (forall i | 0 < i < |starts| :: starts[i - 1] <= stamps[i])
  }

  lemma LastLeaves(stamps: seq<int>, starts: seq<int>)
    requires LeaveInTurn(stamps, starts)
    ensures |stamps| == |starts| && (stamps != [] ==> stamps[|stamps| - 1] <= starts[|starts| - 1])
  {
  }

  lemma OneMoreStamp(stamps: seq<int>, gap: int, t: int)
    requires Paced(stamps, gap) && (stamps != [] ==> t - stamps[|stamps| - 1] >= gap)
    ensures Paced(stamps + [t], gap)
  {
  }

  lemma {:induction false} StampsAreSpread(stamps: seq<int>, gap: int, i: nat, j: nat)
    requires Paced(stamps, gap) && i <= j < |stamps|
    ensures stamps[j] - stamps[i] >= (j - i) * gap
    decreases j
  {
    if i < j {
      StampsAreSpread(stamps, gap, i, j - 1);
      assert (j - i) * gap == (j - 1 - i) * gap + gap;
    }
  }

  /** `n` attempts are stamped at least `n - 1` intervals apart, and leave at least `n - 2` intervals apart. */
  lemma PacedOverall(stamps: seq<int>, starts: seq<int>, gap: int, i: nat, j: nat)
    requires Paced(stamps, gap) && LeaveInTurn(stamps, starts) && i < j < |starts|
    ensures stamps[j] - stamps[i] >= (j - i) * gap
    ensures starts[j] - starts[i] >= (j - i - 1) * gap
  {
    StampsAreSpread(stamps, gap, i, j);
    StampsAreSpread(stamps, gap, i + 1, j);
  }

  function Multiples(gap: nat, n: nat): (r: seq<int>)
    ensures |r| == n
  {
    seq(n, i requires 0 <= i < n => i * gap)
  }

  lemma MultiplesStep(gap: nat, n: nat, i: nat)
    requires 0 < i < n
    ensures Multiples(gap, n)[i] == Multiples(gap, n)[i - 1] + gap
  {
    assert i * gap == (i - 1) * gap + gap;
  }

  lemma MultiplesEnds(gap: nat, n: nat)
    requires n >= 2
    ensures Multiples(gap, n)[0] == 0 && Multiples(gap, n)[n - 1] - gap == (n - 2) * gap
  {
    assert Multiples(gap, n)[n - 1] == (n - 1) * gap;
    assert (n - 1) * gap == (n - 2) * gap + gap;
  }

  /** No more can be promised of when requests leave. */
  lemma PacingIsTight(gap: nat, n: nat) returns (stamps: seq<int>, starts: seq<int>)
    requires n >= 2
    ensures |stamps| == n && Paced(stamps, gap) && LeaveInTurn(stamps, starts)
    ensures starts[n - 1] - starts[0] == (n - 2) * gap
  {
    hide Multiples, Paced, LeaveInTurn;
    stamps := Multiples(gap, n);
    starts := stamps[0 := gap];
    forall i | 0 < i < n
      ensures stamps[i] == stamps[i - 1] + gap
    {
      MultiplesStep(gap, n, i);
    }
    MultiplesEnds(gap, n);
    LeavesInTurn(stamps, starts, gap);
  }

  lemma LeavesInTurn(stamps: seq<int>, starts: seq<int>, gap: nat)
    requires |stamps| >= 2 && stamps[0] == 0 && starts == stamps[0 := gap]
    requires forall i | 0 < i < |stamps| :: stamps[i] == stamps[i - 1] + gap
    ensures Paced(stamps, gap) && LeaveInTurn(stamps, starts)
  {
    assert stamps[1] == stamps[0] + gap;
  }

  datatype Outcome<B> =
    | Page(body: B, contentType: string)
    | CacheError
    | Cancelled
    | Refused(reply: Reply<B>)

  class Client<!U, !B, H(==)> {
    const cache: Cache<U, B, H>
    const world: World<U, B>
    const minInterval: nat
    const maxRetries: nat
    const backoffMax: nat
    const forceRefresh: bool
    var clock: int
    var ticks: nat
    var sent: nat
    var lastRequestAt: Option<int>
    ghost var stamps: seq<int>
    ghost var starts: seq<int>

    constructor (cache: Cache<U, B, H>, world: World<U, B>, minInterval: nat, maxRetries: nat, backoffMax: nat,
                 forceRefresh: bool, now: int)
      ensures Valid() && stamps == [] && starts == []
    {
      this.cache, this.world, this.minInterval, this.maxRetries := cache, world, minInterval, maxRetries;
      this.backoffMax, this.forceRefresh := backoffMax, forceRefresh;
      clock, ticks, sent, lastRequestAt, stamps, starts := now, 0, 0, None, [], [];
    }

    /** Every run of fetches keeps attempts paced. */
    ghost predicate Valid()
      reads this
    {
      && Paced(stamps, minInterval) && LeaveInTurn(stamps, starts) && |starts| == sent
      && lastRequestAt == (if stamps == [] then None else Some(stamps[|stamps| - 1]))
      && (starts != [] ==> starts[|starts| - 1] <= clock)
    }

    method Now() returns (t: int)
      modifies this`clock, this`ticks
      ensures t == clock >= old(clock)
    {
      clock, ticks := clock + world.Passing(ticks), ticks + 1;
      return clock;
    }

    /** Sleeps for `d`, unless the context is cancelled before; no sleep at all for `d` that is not positive. */
    method Sleep(d: int) returns (ok: bool)
      modifies this`clock, this`ticks
      ensures clock >= old(clock) && (ok ==> clock >= old(clock) + d)
      ensures !ok ==> world.cancelledAt.Some? && world.cancelledAt.value < old(clock) + d
    {
      if d <= 0 {
        return true;
      }
      if world.cancelledAt.Some? && world.cancelledAt.value < clock + d {
        clock := if clock < world.cancelledAt.value then world.cancelledAt.value else clock;
        return false;
      }
      clock := clock + d;
      var _ := Now();
      return true;
    }

    method WaitForNextRequest() returns (ok: bool)
      requires Valid()
      modifies this`clock, this`ticks, this`lastRequestAt
      ensures clock >= old(clock)
      ensures ok ==> lastRequestAt == Some(clock) && Paced(stamps + [clock], minInterval)
      ensures !ok ==> Valid() && world.cancelledAt.Some?
    {
      hide Paced, LeaveInTurn;
      LastLeaves(stamps, starts);
      if minInterval <= 0 {
        var t := Now();
        OneMoreStamp(stamps, minInterval, t);
        lastRequestAt := Some(t);
        return true;
      }
      var now := Now();
      if lastRequestAt.Some? {
        var waitFor := minInterval - (now - lastRequestAt.value);
        if waitFor > 0 {
          var slept := Sleep(waitFor + world.Jitter(ticks));
          if !slept {
            return false;
          }
        }
      }
      var t := Now();
      OneMoreStamp(stamps, minInterval, t);
      lastRequestAt := Some(t);
      return true;
    }

    /** One attempt, which leaves some time after it has been stamped. */
    method FetchURLOnce(url: U) returns (reply: Reply<B>)
      requires lastRequestAt == Some(clock) && Paced(stamps + [clock], minInterval) && |starts| == sent
      requires LeaveInTurn(stamps, starts) && (starts != [] ==> starts[|starts| - 1] <= clock)
      modifies this`clock, this`ticks, this`sent, this`stamps, this`starts
      ensures Valid() && clock >= old(clock) && stamps == old(stamps) + [old(clock)] && sent == old(sent) + 1
      ensures starts == old(starts) + [starts[sent - 1]] && reply == world.Answer(url, old(sent))
    {
      stamps := stamps + [clock];
      var start := Now();
      starts := starts + [start];
      reply := world.Answer(url, sent);
      sent := sent + 1;
      var _ := Now();
    }

    /** One fetch: from the cache, or else by at most `maxRetries + 1` paced attempts, the first decisive one of
        which gives the result. The ghost results are when the cache was read and written and the total back-off. */
    method FetchURL(rawURL: U, fault: Fault<B>)
      returns (r: Outcome<B>, ghost readAt: int, ghost wroteAt: int, ghost slept: nat)
      requires Valid()
      modifies this, cache
      ensures Valid() && old(stamps) <= stamps && old(starts) <= starts && old(clock) + slept <= clock
      ensures old(clock) <= readAt <= clock
      ensures var url := cache.naming.Canonical(rawURL);
              var found := if forceRefresh || !cache.enabled then Miss else Read(cache.naming, old(cache.Contents()),
                                                                                 url, readAt, cache.ttl);
              && (found.Hit? ==> r == Page(found.body, found.contentType))
              && (found.Failed? ==> r == CacheError)
              && (!found.Miss? ==> starts == old(starts) && cache.Contents() == old(cache.Contents()))
              && (found.Miss? ==> readAt + slept <= wroteAt <= clock && Fetched(url, r, old(sent), slept, fault,
                                                                                old(cache.Contents()), wroteAt))
    {
      hide Fetched, Read, Paced, LeaveInTurn;
      var url := cache.naming.Canonical(rawURL);
      slept, wroteAt := 0, 0;
      var now := Now();
      readAt := now;
      if !forceRefresh {
        var found := cache.ReadCache(url, now);
        if found.Failed? {
          return CacheError, readAt, wroteAt, slept;
        }
        if found.Hit? {
          return Page(found.body, found.contentType), readAt, wroteAt, slept;
        }
      }
      r, wroteAt, slept := FetchWithRetries(url, fault);
    }

    method FetchWithRetries(url: U, fault: Fault<B>) returns (r: Outcome<B>, ghost wroteAt: int, ghost slept: nat)
      requires Valid()
      modifies this, cache
      ensures Valid() && old(stamps) <= stamps && old(starts) <= starts && old(clock) + slept <= clock
      ensures old(clock) + slept <= wroteAt <= clock
      ensures Fetched(url, r, old(sent), slept, fault, old(cache.Contents()), wroteAt)
    {
      hide Fetched, Decisive, Backoff, RetryDelay, Apply, Paced, LeaveInTurn, Trying, Ended;
      slept, wroteAt := 0, 0;
      var attempt := 0;
      ghost var first := sent;
      NothingYet(url, first);
      while true
        invariant attempt <= maxRetries && Valid() && sent == first + attempt
        invariant old(stamps) <= stamps && old(starts) <= starts && old(clock) + slept <= clock
        invariant cache.Contents() == old(cache.Contents())
        invariant Trying(url, first, attempt, slept)
        decreases maxRetries - attempt
      {
        var ok, reply := Attempt(url);
        if !ok {
          IsFetched(url, Cancelled, first, attempt, slept, fault, cache.Contents(), clock);
          return Cancelled, clock, slept;
        }
        if reply.Got? {
          r, wroteAt := Keep(url, reply, fault);
          IsFetched(url, r, first, attempt, slept, fault, old(cache.Contents()), wroteAt);
          return r, wroteAt, slept;
        }
        if !Retryable(reply) || attempt == maxRetries {
          RefusedEnds(url, reply, fault, cache.Contents(), clock);
          IsFetched(url, Refused(reply), first, attempt, slept, fault, cache.Contents(), clock);
          return Refused(reply), clock, slept;
        }
        var delay := RetryDelay(attempt, reply.retryAfter, backoffMax);
        var rested := Sleep(delay);
        if !rested {
          IsFetched(url, Cancelled, first, attempt, slept, fault, cache.Contents(), clock);
          return Cancelled, clock, slept;
        }
        OneMoreFailure(url, first, attempt, slept);
        slept := slept + NotNegative(delay);
        attempt := attempt + 1;
      }
    }

    /** Stores the page of an answer. */
    method Keep(url: U, reply: Reply<B>, fault: Fault<B>) returns (r: Outcome<B>, ghost wroteAt: int)
      requires reply.Got?
      modifies this`clock, this`ticks, cache
      ensures old(clock) <= wroteAt == clock && !r.Cancelled?
      ensures Ended(url, r, reply, fault, old(cache.Contents()), wroteAt)
    {
      hide Apply;
      var now := Now();
      wroteAt := now;
      var written := cache.WriteCache(url, reply.contentType, reply.body, now, fault);
      r := if written then Page(reply.body, reply.contentType) else CacheError;
    }

    lemma RefusedEnds(url: U, reply: Reply<B>, fault: Fault<B>, before: Disk<H, B>, wroteAt: int)
      requires reply.Failure? && cache.Contents() == before
      ensures Ended(url, Refused(reply), reply, fault, before, wroteAt)
    {
    }

    /** One paced attempt, unless the context is cancelled while waiting for it. */
    method Attempt(url: U) returns (ok: bool, reply: Reply<B>)
      requires Valid()
      modifies this`clock, this`ticks, this`lastRequestAt, this`sent, this`stamps,
               this`starts
      ensures Valid() && old(stamps) <= stamps && old(starts) <= starts && old(clock) <= clock
      ensures if ok then sent == old(sent) + 1 && reply == world.Answer(url, old(sent))
              else sent == old(sent) && world.cancelledAt.Some?
    {
      reply := Reply.Failure(0, 0);
      ok := WaitForNextRequest();
      if ok {
        reply := FetchURLOnce(url);
      }
    }

    /** `attempt` retryable failures so far, and the back-off for each of them. */
    ghost predicate Trying(url: U, first: nat, attempt: nat, slept: nat) {
      && slept == Backoff(world, url, first, attempt, backoffMax)
      && forall i | first <= i < first + attempt :: Retryable(world.Answer(url, i))
    }

    lemma NothingYet(url: U, first: nat)
      ensures Trying(url, first, 0, 0)
    {
    }

    lemma OneMoreFailure(url: U, first: nat, attempt: nat, slept: nat)
      requires Trying(url, first, attempt, slept) && Retryable(world.Answer(url, first + attempt))
      ensures Trying(url, first, attempt + 1, slept
                     + NotNegative(RetryDelay(attempt, world.Answer(url, first + attempt).retryAfter, backoffMax)))
    {
      hide RetryDelay;
      BackoffAfterOneMore(world, url, first, attempt, backoffMax);
    }

    lemma NotYetDecided(url: U, first: nat, attempt: nat, slept: nat)
      requires Trying(url, first, attempt, slept) && attempt <= maxRetries
      ensures slept == Backoff(world, url, first, attempt, backoffMax) && slept <= maxRetries * backoffMax
      ensures first + attempt <= Decisive(world, url, first, maxRetries)
      ensures !Retryable(world.Answer(url, first + attempt)) || attempt == maxRetries ==>
                Decisive(world, url, first, maxRetries) == first + attempt
    {
      DecisiveAhead(world, url, first, maxRetries, attempt);
      BackoffIsBounded(world, url, first, attempt, backoffMax);
      MoreTakesLonger(attempt, maxRetries, backoffMax);
      hide RetryDelay, Backoff;
    }

    /** How a fetch that missed the cache ends. */
    ghost predicate Fetched(url: U, r: Outcome<B>, first: nat, slept: nat, fault: Fault<B>, before: Disk<H, B>,
                            wroteAt: int)
      reads this, cache
    {
      var k := Decisive(world, url, first, maxRetries);
      && slept <= maxRetries * backoffMax && first <= sent <= first + maxRetries + 1
      && if r.Cancelled? then world.cancelledAt.Some? && sent <= k + 1 && cache.Contents() == before
         else && sent == k + 1 && slept == Backoff(world, url, first, k - first, backoffMax)
              && Ended(url, r, world.Answer(url, k), fault, before, wroteAt)
    }

    /** How the loop ends after `attempt` retryable failures. */
    lemma IsFetched(url: U, r: Outcome<B>, first: nat, attempt: nat, slept: nat, fault: Fault<B>, before: Disk<H, B>,
                    wroteAt: int)
      requires Trying(url, first, attempt, slept) && attempt <= maxRetries && first + attempt <= sent
      requires if r.Cancelled? then world.cancelledAt.Some? && sent <= first + attempt + 1 && cache.Contents() == before
               else && sent == first + attempt + 1
                    && Ended(url, r, world.Answer(url, first + attempt), fault, before, wroteAt)
                    && (!Retryable(world.Answer(url, first + attempt)) || attempt == maxRetries)
      ensures Fetched(url, r, first, slept, fault, before, wroteAt)
    {
      hide Trying, Decisive, Backoff, Ended;
      NotYetDecided(url, first, attempt, slept);
    }

    /** What the decisive answer leads to: its page, stored in the cache, or its failure. */
    ghost predicate Ended(url: U, r: Outcome<B>, reply: Reply<B>, fault: Fault<B>, before: Disk<H, B>, wroteAt: int)
      reads cache
    {
      match reply
      case Failure(_, _) => r == Refused(reply) && cache.Contents() == before
      case Got(body, contentType) =>
        if !cache.enabled then r == Page(body, contentType) && cache.Contents() == before
        else && r == (if fault.NoFault? then Page(body, contentType) else CacheError)
             && cache.Contents() == Apply(cache.naming, before, Write(url, contentType, body, wroteAt, fault))
    }
  }
}
