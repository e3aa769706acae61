/** What a bounded cache with expiry should contain, told by the log of its Set calls alone; and the two
    in-place operations of backend/internal/services/qa_cache.go that have to agree with it: expiry and
    eviction of the oldest entries. Time is an integer; 0 is Go's zero time. */
module EntryLog {
  import opened Lists

  datatype Record<K, V> = Record(key: K, value: V, at: int)

  datatype Entry<V> = Entry(value: V, createdAt: int, expiresAt: int, lastHitAt: int, hitCount: nat)

  datatype Limits = Limits(ttl: int, max: int)

  // ----- The specification -----

  /** The last Set of a key, or -1. */
  function LastSet<K(==), V>(log: seq<Record<K, V>>, k: K): (i: int)
    ensures -1 <= i < |log|
    ensures i >= 0 ==> log[i].key == k
    ensures forall j | i < j < |log| :: log[j].key != k
  {
    LastIndex(log, (r: Record<K, V>) => r.key == k)
  }

  /** The keys Set after position `i`. */
  function LaterKeys<K(==), V>(log: seq<Record<K, V>>, i: int): set<K> {
    set j | 0 <= j < |log| && i < j :: log[j].key
  }

  /** The log's verdict: the key was Set at most `ttl` ago, and fewer than `max` other keys were Set since
      (no bound when `max` is not positive). */
  predicate Alive<K(==), V>(log: seq<Record<K, V>>, k: K, now: int, limits: Limits) {
    var i := LastSet(log, k);
    && i >= 0
    && now <= log[i].at + limits.ttl
    && (limits.max <= 0 || |LaterKeys(log, i)| < limits.max)
  }

  /** Set calls come one after the other, after the zero time. */
  ghost predicate Increasing<K, V>(log: seq<Record<K, V>>) {
    && (forall i | 0 <= i < |log| :: 0 < log[i].at)
    && (forall i, j | 0 <= i < j < |log| :: log[i].at < log[j].at)
  }

  /** The entries are the ones the log keeps alive at `now`, each as its last Set left it. */
  ghost predicate Tracks<K(!new), V>(m: map<K, Entry<V>>, log: seq<Record<K, V>>, now: int, limits: Limits) {
    && (forall k :: k in m <==> Alive(log, k, now, limits))
    && (forall k | k in m ::
          var r := log[LastSet(log, k)];
          m[k].value == r.value && m[k].createdAt == r.at && m[k].expiresAt == r.at + limits.ttl)
  }

  lemma TracksLookup<K(!new), V>(m: map<K, Entry<V>>, log: seq<Record<K, V>>, now: int, limits: Limits, k: K)
    requires Tracks(m, log, now, limits)
    ensures k in m <==> Alive(log, k, now, limits)
    ensures k in m ==> LastSet(log, k) >= 0 && m[k].value == log[LastSet(log, k)].value
  {
  }

  /** Noting a hit on an entry changes nothing the log speaks of. */
  lemma TouchTracks<K(!new), V>(m: map<K, Entry<V>>, log: seq<Record<K, V>>, now: int, limits: Limits, k: K,
                                e: Entry<V>)
    requires Tracks(m, log, now, limits) && k in m
    requires e.value == m[k].value && e.createdAt == m[k].createdAt && e.expiresAt == m[k].expiresAt
    ensures Tracks(m[k := e], log, now, limits)
  {
    hide Alive, LastSet;
  }

  // ----- Expiry -----

  predicate Expired<V>(e: Entry<V>, now: int) {
    e.expiresAt != 0 && now > e.expiresAt
  }

  /** One map's loop of removeExpiredLocked. */
  method RemoveExpired<K, V>(entries: map<K, Entry<V>>, now: int) returns (kept: map<K, Entry<V>>)
    ensures kept == map k | k in entries && !Expired(entries[k], now) :: entries[k]
  {
    kept := entries;
    var pending := entries.Keys;
    while pending != {}
      invariant pending <= entries.Keys
      invariant forall k :: k in kept <==> k in entries && (k in pending || !Expired(entries[k], now))
      invariant forall k | k in kept :: kept[k] == entries[k]
    {
      var k :| k in pending;
      pending := pending - {k};
      if Expired(entries[k], now) {
        kept := kept - {k};
      }
    }
  }

  lemma ExpiryTracks<K(!new), V>(m: map<K, Entry<V>>, log: seq<Record<K, V>>, before: int, now: int, limits: Limits)
    requires Tracks(m, log, before, limits) && Increasing(log) && before <= now && limits.ttl > 0
    ensures Tracks(map k | k in m && !Expired(m[k], now) :: m[k], log, now, limits)
  {
  }

  // ----- Eviction -----

  /** `r` is `entries` without its oldest entries, down to `max`. */
  ghost predicate Evicted<K, V>(entries: map<K, Entry<V>>, max: int, r: map<K, Entry<V>>) {
    && (forall k | k in r :: k in entries && r[k] == entries[k])
    && (max <= 0 || |entries| <= max ==> r == entries)
    && (max > 0 && |entries| > max ==> |r| == max)
    && (forall k, k' | k in entries && k !in r && k' in r :: entries[k].createdAt <= entries[k'].createdAt)
  }

  method Oldest<K, V>(entries: map<K, Entry<V>>) returns (k: K)
    requires entries.Keys != {}
    ensures k in entries && forall k' | k' in entries :: entries[k].createdAt <= entries[k'].createdAt
  {
    k :| k in entries;
    var pending := entries.Keys;
    while pending != {}
      invariant pending <= entries.Keys && k in entries
      invariant forall k' | k' in entries.Keys - pending :: entries[k].createdAt <= entries[k'].createdAt
    {
      var other :| other in pending;
      pending := pending - {other};
      if entries[other].createdAt < entries[k].createdAt {
        k := other;
      }
    }
  }

  /** evictOldestLocked; sorting by creation time and deleting a prefix is done here by removing a minimum
      as many times. */
  method EvictOldest<K, V>(entries: map<K, Entry<V>>, max: int) returns (r: map<K, Entry<V>>)
    ensures Evicted(entries, max, r)
  {
    r := entries;
    if max <= 0 || |entries| <= max {
      return;
    }
    while |r| > max
      invariant max <= |r|
      invariant forall k | k in r :: k in entries && r[k] == entries[k]
      invariant forall k, k' | k in entries && k !in r && k' in r :: entries[k].createdAt <= entries[k'].createdAt
    {
      assert |r.Keys| == |r|;
      var k := Oldest(r);
      ghost var before := r;
      r := r - {k};
      assert r.Keys == before.Keys - {k};
    }
  }

  // ----- A Set call keeps the entries in step with the log -----

  lemma AfterSet<K, V>(log: seq<Record<K, V>>, r: Record<K, V>, k: K)
    ensures LastSet(log + [r], k) == if k == r.key then |log| else LastSet(log, k)
    ensures forall i | i < |log| :: LaterKeys(log + [r], i) == LaterKeys(log, i) + {r.key}
    ensures LaterKeys(log + [r], |log|) == {}
  {
    assert (log + [r])[..|log|] == log;
    forall i | i < |log|
      ensures LaterKeys(log + [r], i) == LaterKeys(log, i) + {r.key}
    {
      assert (log + [r])[|log|] == r;
    }
  }

  lemma StaysIncreasing<K, V>(log: seq<Record<K, V>>, r: Record<K, V>)
    requires Increasing(log) && 0 < r.at && forall i | 0 <= i < |log| :: log[i].at < r.at
    ensures Increasing(log + [r])
  {
  }

  lemma SubsetIsSmaller<T>(a: set<T>, b: set<T>)
    requires a <= b
    ensures |a| <= |b|
    ensures |a| == |b| ==> a == b
  {
    assert b == a + (b - a);
  }

  /** Whatever was Set after a live key is live too. */
  lemma LaterKeysAreAlive<K, V>(log: seq<Record<K, V>>, k: K, j: K, now: int, limits: Limits)
    requires Increasing(log) && Alive(log, k, now, limits) && j in LaterKeys(log, LastSet(log, k))
    ensures Alive(log, j, now, limits) && LastSet(log, k) < LastSet(log, j)
  {
    var i, n := LastSet(log, k), LastSet(log, j);
    var p :| 0 <= p < |log| && i < p && log[p].key == j;
    assert p <= n;
    assert LaterKeys(log, n) <= LaterKeys(log, i);
    SubsetIsSmaller(LaterKeys(log, n), LaterKeys(log, i));
  }

  /** The order of creation is the order of the last Sets. */
  lemma CreationOrder<K(!new), V>(m: map<K, Entry<V>>, log: seq<Record<K, V>>, now: int, limits: Limits, a: K, b: K)
    requires Tracks(m, log, now, limits) && Increasing(log) && a in m && b in m && a != b
    ensures m[a].createdAt < m[b].createdAt <==> b in LaterKeys(log, LastSet(log, a))
    ensures m[a].createdAt != m[b].createdAt
  {
    var i, n := LastSet(log, a), LastSet(log, b);
    assert i != n;
  }

  /** A Set call followed by eviction leaves exactly what the longer log keeps alive. */
  lemma SetTracks<K(!new), V>(m: map<K, Entry<V>>, log: seq<Record<K, V>>, rec: Record<K, V>, e: Entry<V>,
                        r: map<K, Entry<V>>, limits: Limits)
    requires Tracks(m, log, rec.at, limits) && Increasing(log + [rec]) && limits.ttl > 0
    requires e.value == rec.value && e.createdAt == rec.at && e.expiresAt == rec.at + limits.ttl
    requires Evicted(m[rec.key := e], limits.max, r)
    ensures Tracks(r, log + [rec], rec.at, limits)
  {
    var log' := log + [rec];
    assert Increasing(log) by {
      forall i, j | 0 <= i < j < |log| ensures log[i].at < log[j].at { assert log'[i].at < log'[j].at; }
      forall i | 0 <= i < |log| ensures 0 < log[i].at { assert 0 < log'[i].at; }
    }
    forall k
      ensures k in r <==> Alive(log', k, rec.at, limits)
      ensures k in r ==>
        var s := log'[LastSet(log', k)];
        r[k].value == s.value && r[k].createdAt == s.at && r[k].expiresAt == s.at + limits.ttl
    {
      AfterSet(log, rec, k);
      if k == rec.key {
        NewKeySurvives(m, log, rec, e, r, limits);
      } else {
        OldKeySurvivesIff(m, log, rec, e, r, limits, k);
      }
    }
  }

  lemma CreatedEarlier<K(!new), V>(m: map<K, Entry<V>>, log: seq<Record<K, V>>, rec: Record<K, V>, limits: Limits, k: K)
    requires Tracks(m, log, rec.at, limits) && Increasing(log + [rec]) && k in m
    ensures m[k].createdAt < rec.at
  {
    var i := LastSet(log, k);
    assert (log + [rec])[i] == log[i] && (log + [rec])[|log|] == rec;
  }

  lemma NewKeySurvives<K(!new), V>(m: map<K, Entry<V>>, log: seq<Record<K, V>>, rec: Record<K, V>, e: Entry<V>,
                                   r: map<K, Entry<V>>, limits: Limits)
    requires Tracks(m, log, rec.at, limits) && Increasing(log + [rec])
    requires e.createdAt == rec.at && Evicted(m[rec.key := e], limits.max, r)
    ensures rec.key in r && r[rec.key] == e
  {
    forall k | k in m ensures m[k].createdAt < rec.at { CreatedEarlier(m, log, rec, limits, k); }
    hide Tracks, Increasing;
    NewestSurvives(m[rec.key := e], limits.max, r, rec.key);
  }

  /** Eviction keeps the newest entry. */
  lemma NewestSurvives<K, V>(entries: map<K, Entry<V>>, max: int, r: map<K, Entry<V>>, k: K)
    requires Evicted(entries, max, r) && k in entries
    requires forall k' | k' in entries && k' != k :: entries[k'].createdAt < entries[k].createdAt
    ensures k in r && r[k] == entries[k]
  {
    if max > 0 && |entries| > max {
      assert |r.Keys| == |r|;
      var other :| other in r.Keys;
      assert other == k || entries[other].createdAt < entries[k].createdAt;
    }
  }

  lemma EvictedSize<K, V>(entries: map<K, Entry<V>>, max: int, r: map<K, Entry<V>>, k: K)
    requires Evicted(entries, max, r) && max > 0
    ensures |r.Keys| <= max
    ensures k in entries && k !in r ==> |r.Keys| == max
  {
    assert |r.Keys| == |r|;
  }

  /** The keys created after a kept key are kept; those kept are created after an evicted one. */
  lemma EvictionByAge<K, V>(entries: map<K, Entry<V>>, max: int, r: map<K, Entry<V>>, k: K, j: K)
    requires Evicted(entries, max, r) && k in entries && j in entries && k != j
    requires entries[k].createdAt != entries[j].createdAt
    ensures k in r && entries[k].createdAt < entries[j].createdAt ==> j in r
    ensures k !in r && j in r ==> entries[k].createdAt < entries[j].createdAt
  {
  }

  /** A kept entry has, since its last Set, only seen keys that were kept as well. */
  lemma KeptIsAlive<K(!new), V>(m: map<K, Entry<V>>, log: seq<Record<K, V>>, rec: Record<K, V>, e: Entry<V>,
                                r: map<K, Entry<V>>, limits: Limits, k: K)
    requires Tracks(m, log, rec.at, limits) && Increasing(log) && k != rec.key && k in m && k in r
    requires limits.max > 0 && Evicted(m[rec.key := e], limits.max, r) && rec.key in r
    ensures |LaterKeys(log, LastSet(log, k)) + {rec.key}| < limits.max
  {
    hide Evicted, LaterKeys, LastSet;
    var later := LaterKeys(log, LastSet(log, k));
    forall j | j in later + {rec.key}
      ensures j in r.Keys - {k}
    {
      if j != rec.key {
        LaterKeysAreAlive(log, k, j, rec.at, limits);
        CreationOrder(m, log, rec.at, limits, k, j);
        EvictionByAge(m[rec.key := e], limits.max, r, k, j);
      }
    }
    EvictedSize(m[rec.key := e], limits.max, r, k);
    StrictlySmaller(later + {rec.key}, r.Keys, k);
  }

  lemma StrictlySmaller<T>(a: set<T>, b: set<T>, x: T)
    requires x in b && a <= b - {x}
    ensures |a| < |b|
  {
    SubsetIsSmaller(a, b - {x});
  }

  /** An evicted entry has, since its last Set, seen every key that was kept. */
  lemma EvictedIsDead<K(!new), V>(m: map<K, Entry<V>>, log: seq<Record<K, V>>, rec: Record<K, V>, e: Entry<V>,
                                  r: map<K, Entry<V>>, limits: Limits, k: K)
    requires Tracks(m, log, rec.at, limits) && Increasing(log) && k != rec.key && k in m && k !in r
    requires limits.max > 0 && Evicted(m[rec.key := e], limits.max, r) && rec.key in r
    ensures |LaterKeys(log, LastSet(log, k)) + {rec.key}| >= limits.max
  {
    EvictedSize(m[rec.key := e], limits.max, r, k);
    assert forall j | j in r :: j in m || j == rec.key;
    hide Evicted, LaterKeys, LastSet;
    var later := LaterKeys(log, LastSet(log, k));
    forall j | j in r.Keys
      ensures j in later + {rec.key}
    {
      if j != rec.key {
        CreationOrder(m, log, rec.at, limits, k, j);
        EvictionByAge(m[rec.key := e], limits.max, r, k, j);
      }
    }
    SubsetIsSmaller(r.Keys, later + {rec.key});
  }

  lemma OldKeySurvivesIff<K(!new), V>(m: map<K, Entry<V>>, log: seq<Record<K, V>>, rec: Record<K, V>, e: Entry<V>,
                                      r: map<K, Entry<V>>, limits: Limits, k: K)
    requires Tracks(m, log, rec.at, limits) && Increasing(log) && Increasing(log + [rec]) && k != rec.key
    requires e.createdAt == rec.at && Evicted(m[rec.key := e], limits.max, r)
    ensures k in r <==> Alive(log + [rec], k, rec.at, limits)
    ensures k in r ==> k in m && r[k] == m[k]
  {
    AfterSet(log, rec, k);
    NewKeySurvives(m, log, rec, e, r, limits);
    var i := LastSet(log, k);
    if limits.max > 0 && i >= 0 {
      SubsetIsSmaller(LaterKeys(log, i), LaterKeys(log, i) + {rec.key});
      if k in m && k in r {
        KeptIsAlive(m, log, rec, e, r, limits, k);
      } else if k in m {
        EvictedIsDead(m, log, rec, e, r, limits, k);
      }
    }
    hide Increasing, LaterKeys, LastSet;
  }

  lemma {:induction false} LeastOf<K>(keys: set<K>, rank: K -> int) returns (k: K)
    requires keys != {}
    ensures k in keys && forall j | j in keys :: rank(k) <= rank(j)
    decreases keys
  {
    k :| k in keys;
    if keys != {k} {
      var j := LeastOf(keys - {k}, rank);
      if rank(j) < rank(k) {
        k := j;
      }
    }
  }

  lemma LaterThanLeast<K, V>(log: seq<Record<K, V>>, k: K, j: K)
    requires k != j && 0 <= LastSet(log, k) <= LastSet(log, j)
    ensures j in LaterKeys(log, LastSet(log, k))
  {
    assert log[LastSet(log, j)].key == j;
  }

  /** However many keys are Set, a bounded cache never holds more entries than its bound. */
  lemma TrackedEntriesAreBounded<K(!new), V>(m: map<K, Entry<V>>, log: seq<Record<K, V>>, now: int, limits: Limits)
    requires Tracks(m, log, now, limits) && Increasing(log) && limits.max > 0
    ensures |m| <= limits.max
  {
    if m.Keys != {} {
      var k := LeastOf(m.Keys, (k: K) => LastSet(log, k));
      forall j | j in m.Keys - {k}
        ensures j in LaterKeys(log, LastSet(log, k))
      {
        LaterThanLeast(log, k, j);
      }
      hide LaterKeys, LastSet;
      SubsetIsSmaller(m.Keys - {k}, LaterKeys(log, LastSet(log, k)));
      assert |m.Keys| == |m|;
    }
  }
}
