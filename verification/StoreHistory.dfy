/** The authoritative product store seen over time, as the list of its versions.
    Version 0 is the store at start-up; version t > 0 is the store right after the t-th write. */
module StoreHistory {

  datatype Version<K, V> = Version(key: K, since: nat, data: map<K, V>)

  /** Both maps agree on every key except possibly `key`. */
  ghost predicate SameExcept<K(!new), V>(a: map<K, V>, b: map<K, V>, key: K) {
    forall k :: k != key ==> SameAt(a, b, k)
  }

  ghost predicate SameAt<K, V>(a: map<K, V>, b: map<K, V>, k: K) {
    (k in a <==> k in b) && (k in a && k in b ==> a[k] == b[k])
  }

  /** Each version differs from its predecessor only at the key its write named. */
  ghost predicate Chain<K(!new), V>(vs: seq<Version<K, V>>) {
    && |vs| > 0
    && (forall t :: 0 < t < |vs| ==> Follows(vs, t))
  }

  ghost predicate Follows<K(!new), V>(vs: seq<Version<K, V>>, t: nat)
    requires 0 < t < |vs|
  {
    && SameExcept(vs[t - 1].data, vs[t].data, vs[t].key)
    && vs[t - 1].since <= vs[t].since
  }

  /** Some write to `k` produced a version in (lo, hi]. */
  ghost predicate WrittenIn<K, V>(vs: seq<Version<K, V>>, k: K, lo: nat, hi: nat)
    requires hi < |vs|
  {
    exists t :: lo < t <= hi && vs[t].key == k
  }

  /** Version f was the current one when the clock read `at`. */
  ghost predicate CurrentAt<K, V>(vs: seq<Version<K, V>>, f: nat, at: nat) {
    && f < |vs|
    && vs[f].since <= at
    && (f + 1 < |vs| ==> at <= vs[f + 1].since)
  }

  /** `v` was the store's value for `k` at the instant `at`. */
  ghost predicate HeldAt<K, V>(vs: seq<Version<K, V>>, k: K, v: V, at: nat) {
    exists f: nat :: CurrentAt(vs, f, at) && k in vs[f].data && vs[f].data[k] == v
  }

  ghost predicate StoredIn<K, V>(vs: seq<Version<K, V>>, version: nat, key: K, value: V) {
    version < |vs| && key in vs[version].data && vs[version].data[key] == value
  }

  /** The value came from the store: it is what version `version` held for the key, and that version was
      current when the clock read `at`. */
  ghost predicate Fetched<K, V>(vs: seq<Version<K, V>>, key: K, value: V, version: nat, at: nat) {
    CurrentAt(vs, version, at) && StoredIn(vs, version, key, value)
  }

  /** A key no write names keeps its value. */
  lemma {:induction false} Unwritten<K(!new), V>(vs: seq<Version<K, V>>, k: K, lo: nat, hi: nat)
    requires Chain(vs) && lo <= hi < |vs|
    requires !WrittenIn(vs, k, lo, hi)
    ensures SameAt(vs[lo].data, vs[hi].data, k)
    decreases hi
  {
    if lo < hi {
      Unwritten(vs, k, lo, hi - 1);
      assert Follows(vs, hi);
      assert vs[hi].key != k;
      assert SameAt(vs[hi - 1].data, vs[hi].data, k);
    }
  }

  /** A value the store no longer holds for a key was written over since the version it came from. */
  lemma Overwritten<K(!new), V>(vs: seq<Version<K, V>>, key: K, value: V, version: nat)
    requires Chain(vs) && StoredIn(vs, version, key, value) && !StoredIn(vs, |vs| - 1, key, value)
    ensures WrittenIn(vs, key, version, |vs| - 1)
  {
    if !WrittenIn(vs, key, version, |vs| - 1) {
      Unwritten(vs, key, version, |vs| - 1);
      assert false;
    }
  }

  /** Appending a write keeps the chain and everything said about older versions. */
  lemma Extend<K(!new), V>(vs: seq<Version<K, V>>, v: Version<K, V>)
    requires Chain(vs)
    requires SameExcept(vs[|vs| - 1].data, v.data, v.key) && vs[|vs| - 1].since <= v.since
    ensures Chain(vs + [v])
  {
    var ws := vs + [v];
    forall t | 0 < t < |ws|
      ensures Follows(ws, t)
    {
      if t < |vs| {
        assert Follows(vs, t);
      }
    }
  }

  /** Counting by sets: at most one element joins. */
  lemma OneMore(a: set<nat>, b: set<nat>, id: nat, added: bool)
    requires forall i :: i in b <==> i in a || (added && i == id)
    ensures |b| == |a| + if added && id !in a then 1 else 0
  {
    if added && id !in a {
      assert b == a + {id};
    } else {
      assert b == a;
    }
  }
}
