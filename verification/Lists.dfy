/** Searching lists, and sums of weights over lists of keys. */
module Lists {

  /** The position of the last element satisfying `p`, or -1. */
  function LastIndex<T>(s: seq<T>, p: T -> bool): (i: int)
    ensures -1 <= i < |s|
    ensures i >= 0 ==> p(s[i])
    ensures forall j | i < j < |s| :: !p(s[j])
  {
    if s == [] then -1
    else if p(s[|s| - 1]) then |s| - 1
    else
      var i := LastIndex(s[..|s| - 1], p);
      assert forall j | i < j < |s| - 1 :: s[j] == s[..|s| - 1][j];
      i
  }

  function Sum(w: seq<nat>): nat {
    if w == [] then 0 else Sum(w[..|w| - 1]) + w[|w| - 1]
  }

  ghost predicate Distinct<K>(s: seq<K>) {
    forall i, j | 0 <= i < j < |s| :: s[i] != s[j]
  }

  function Without<K>(s: seq<K>, j: nat): (r: seq<K>)
    requires j < |s|
    ensures |r| == |s| - 1
    ensures forall i | 0 <= i < |r| :: r[i] == if i < j then s[i] else s[i + 1]
  {
    s[..j] + s[j + 1..]
  }

  lemma {:induction false} SumWithout(w: seq<nat>, j: nat)
    requires j < |w|
    ensures Sum(w) == Sum(Without(w, j)) + w[j]
    decreases |w|
  {
    var n := |w| - 1;
    if j == n {
      assert Without(w, j) == w[..n];
    } else {
      SumWithout(w[..n], j);
      assert Without(w, j)[..n - 1] == Without(w[..n], j);
    }
  }

  lemma {:induction false} SumIsZeroIff(w: seq<nat>)
    ensures Sum(w) == 0 <==> forall i | 0 <= i < |w| :: w[i] == 0
    decreases |w|
  {
    if w != [] {
      SumIsZeroIff(w[..|w| - 1]);
    }
  }

  lemma SumsDifferAt(a: seq<nat>, b: seq<nat>, p: nat)
    requires |a| == |b| && p < |a| && forall i | 0 <= i < |a| && i != p :: a[i] == b[i]
    ensures Sum(a) - a[p] == Sum(b) - b[p]
  {
    SumWithout(a, p);
    SumWithout(b, p);
    assert Without(a, p) == Without(b, p);
  }

  /** The last position of `key`, or -1. */
  function LastAt<K(==)>(keys: seq<K>, key: K): (i: int)
    ensures -1 <= i < |keys|
    ensures i >= 0 ==> keys[i] == key
    ensures forall j | i < j < |keys| :: keys[j] != key
  {
    LastIndex(keys, k => k == key)
  }

  lemma DistinctIffLast<K>(keys: seq<K>)
    ensures Distinct(keys) <==> forall j | 0 <= j < |keys| :: LastAt(keys, keys[j]) == j
  {
    if forall j | 0 <= j < |keys| :: LastAt(keys, keys[j]) == j {
      forall i, j | 0 <= i < j < |keys|
        ensures keys[i] != keys[j]
      {
        assert LastAt(keys, keys[i]) == i;
      }
    }
  }

  /** The weights of the entries that do not stand for a key of `all`: a later entry has the same key, or `all` does
      not hold it. */
  function Spare<K(==)>(keys: seq<K>, w: seq<nat>, all: seq<K>): (r: seq<nat>)
    requires |keys| == |w|
    ensures |r| == |w|
  {
    seq(|w|, j requires 0 <= j < |w| => if keys[j] in all && LastAt(keys, keys[j]) == j then 0 else w[j])
  }

  /** The weights of the keys of `all` that no entry has. */
  function Added<K(==)>(all: seq<K>, v: seq<nat>, keys: seq<K>): (r: seq<nat>)
    requires |all| == |v|
    ensures |r| == |v|
  {
    seq(|v|, i requires 0 <= i < |v| => if all[i] in keys then 0 else v[i])
  }

  /** `v` weighs every key of `all` that has an entry as its last entry does. */
  ghost predicate WeighsLast<K>(keys: seq<K>, w: seq<nat>, all: seq<K>, v: seq<nat>) {
    && |keys| == |w| && |all| == |v|
    && forall i | 0 <= i < |all| && all[i] in keys :: v[i] == w[LastAt(keys, all[i])]
  }

  lemma OneMoreAdded<K>(all: seq<K>, v: seq<nat>, keys: seq<K>)
    requires |all| == |v| && all != []
    ensures var n := |all| - 1;
            Sum(Added(all, v, keys)) == Sum(Added(all[..n], v[..n], keys)) + if all[n] in keys then 0 else v[n]
  {
    var n := |all| - 1;
    assert Added(all, v, keys)[..n] == Added(all[..n], v[..n], keys);
  }

  lemma OneLessSpare<K>(keys: seq<K>, w: seq<nat>, all: seq<K>)
    requires |keys| == |w| && all != [] && Distinct(all)
    ensures var n := |all| - 1;
            Sum(Spare(keys, w, all[..n]))
            == Sum(Spare(keys, w, all)) + if all[n] in keys then w[LastAt(keys, all[n])] else 0
  {
    var n := |all| - 1;
    var before, after := Spare(keys, w, all[..n]), Spare(keys, w, all);
    assert all == all[..n] + [all[n]];
    if all[n] in keys {
      var p := LastAt(keys, all[n]);
      SumsDifferAt(before, after, p);
    } else {
      assert before == after;
    }
  }

  /** The two lists of weights sum to the same number, but for the spare entries on one side and the added keys on
      the other. */
  lemma {:induction false} SumsBalance<K>(keys: seq<K>, w: seq<nat>, all: seq<K>, v: seq<nat>)
    requires WeighsLast(keys, w, all, v) && Distinct(all)
    ensures Sum(w) + Sum(Added(all, v, keys)) == Sum(v) + Sum(Spare(keys, w, all))
    decreases |all|
  {
    if all == [] {
      assert Spare(keys, w, all) == w;
    } else {
      var n := |all| - 1;
      SumsBalance(keys, w, all[..n], v[..n]);
      OneMoreAdded(all, v, keys);
      OneLessSpare(keys, w, all);
      hide Spare, Added, LastAt;
    }
  }

  // ----- Removing repetitions -----

  /** The elements without those whose key came before. */
  function DedupBy<T, K(==)>(items: seq<T>, key: T -> K): seq<T> {
    if items == [] then []
    else
      var init := DedupBy(items[..|items| - 1], key);
      var last := items[|items| - 1];
      if exists i | 0 <= i < |init| :: key(init[i]) == key(last) then init else init + [last]
  }

  ghost predicate HasKey<T, K>(out: seq<T>, key: T -> K, k: K) {
    exists j :: 0 <= j < |out| && key(out[j]) == k
  }

  ghost predicate Covered<T, K>(items: seq<T>, out: seq<T>, key: T -> K) {
    forall i | 0 <= i < |items| :: HasKey(out, key, key(items[i]))
  }

  ghost predicate DistinctBy<T, K>(out: seq<T>, key: T -> K) {
    forall i, j | 0 <= i < j < |out| :: key(out[i]) != key(out[j])
  }

  lemma HasKeyInMore<T, K>(out: seq<T>, key: T -> K, x: T, k: K)
    ensures HasKey(out + [x], key, k) <==> HasKey(out, key, k) || key(x) == k
  {
    assert (out + [x])[|out|] == x;
    if j :| 0 <= j < |out| && key(out[j]) == k {
      assert key((out + [x])[j]) == k;
    }
  }

  /** Each key survives, and survives once. */
  lemma {:induction false} DedupKeepsEachKeyOnce<T, K>(items: seq<T>, key: T -> K)
    ensures Covered(items, DedupBy(items, key), key)
    ensures DistinctBy(DedupBy(items, key), key)
    decreases |items|
  {
    if items != [] {
      var n := |items| - 1;
      var init, last := DedupBy(items[..n], key), items[n];
      DedupKeepsEachKeyOnce(items[..n], key);
      forall i | 0 <= i < n
        ensures HasKey(init, key, key(items[i])) && HasKey(init + [last], key, key(items[i]))
      {
        assert items[..n][i] == items[i];
        HasKeyInMore(init, key, last, key(items[i]));
      }
      HasKeyInMore(init, key, last, key(last));
    }
  }
}
