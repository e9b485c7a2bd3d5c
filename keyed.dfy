/** Object stores as maps from primary key to record: the generic
    `create` (IndexedDB `add`), `update` (`put`), `delete` and `read`,
    and the primary-key order in which `getAll` returns the records of a
    store whose keys come from a key generator. */
module Keyed {

  /** The IndexedDB errors the ledger can meet: `add` on an existing key,
      a key range whose lower bound is above its upper bound, and an
      index that was never created. */
  datatype StoreError = ConstraintError | DataError | NotFoundError

  datatype Written<K, V> = Written(store: map<K, V>) | Rejected(error: StoreError)

  /** `store.add(record)`: insert-only; an existing key is a ConstraintError. */
  function Add<K, V>(m: map<K, V>, k: K, v: V): (r: Written<K, V>)
    ensures r.Rejected? <==> k in m
    ensures r.Written? ==> r.store.Keys == m.Keys + {k} && r.store[k] == v
    ensures r.Written? ==> forall j :: j in m ==> r.store[j] == m[j]
  {
    if k in m then Rejected(ConstraintError) else Written(m[k := v])
  }

  /** `store.put(record)`: replaces or inserts by key. */
  function Put<K, V>(m: map<K, V>, k: K, v: V): (r: map<K, V>)
    ensures r.Keys == m.Keys + {k} && r[k] == v
    ensures forall j :: j in m && j != k ==> r[j] == m[j]
  {
    m[k := v]
  }

  /** `store.delete(key)`: removes that key only; a missing key is no error. */
  function Delete<K, V>(m: map<K, V>, k: K): (r: map<K, V>)
    ensures r.Keys == m.Keys - {k}
    ensures forall j :: j in r ==> r[j] == m[j]
  {
    m - {k}
  }

  /** `put` twice with the same record is the same as once. */
  lemma PutIdempotent<K, V>(m: map<K, V>, k: K, v: V)
    ensures Put(Put(m, k, v), k, v) == Put(m, k, v)
  {
  }

  /** After `delete(k)` nothing is stored under `k`, whatever was there. */
  lemma DeleteThenRead<K, V>(m: map<K, V>, k: K)
    ensures k !in Delete(m, k)
    ensures Delete(Delete(m, k), k) == Delete(m, k)
  {
  }

  /** One `delete` per key of `keys`, in order: what is left is the store
      without those keys, every other record as it was. */
  method DeleteKeys<K, V>(m: map<K, V>, keys: seq<K>) returns (r: map<K, V>)
    ensures forall k :: k in r <==> k in m && k !in keys
    ensures forall k :: k in r ==> r[k] == m[k]
  {
    r := m;
    var i := 0;
    while i < |keys|
      invariant 0 <= i <= |keys|
      invariant forall k :: k in r <==> k in m && k !in keys[..i]
      invariant forall k :: k in r ==> r[k] == m[k]
    {
      assert keys[..i + 1] == keys[..i] + [keys[i]];
      r := Delete(r, keys[i]);
      i := i + 1;
    }
    assert keys[..i] == keys;
  }

  /** A write after a merge is a write into the merged-in map. */
  lemma UnionUpdate<K, V>(m: map<K, V>, p: map<K, V>, k: K, v: V)
    ensures (m + p)[k := v] == m + p[k := v]
  {
  }

  /** Writing into an empty store leaves just what is written. */
  lemma UnionWithEmpty<K, V>(m: map<K, V>, p: map<K, V>)
    requires m == map[]
    ensures m + p == p && p.Keys !! m.Keys
  {
  }

  /** The records with keys below `n`, in ascending key order: what
      `getAll()` returns for a store whose keys are all below `n`. */
  function Ascending<V>(m: map<nat, V>, n: nat): (s: seq<V>)
    ensures |s| <= n
  {
    if n == 0 then [] else Ascending(m, n - 1) + (if n - 1 in m then [m[n - 1]] else [])
  }

  predicate KeysBelow<V>(m: map<nat, V>, n: nat)
  {
    forall k :: k in m ==> k < n
  }

  /** Every listed record is stored under some key below `n`, and every
      record stored below `n` is listed. */
  lemma {:induction false} AscendingMembers<V>(m: map<nat, V>, n: nat)
    ensures forall v :: v in Ascending(m, n) ==> exists k :: k in m && k < n && m[k] == v
    ensures forall k :: k in m && k < n ==> m[k] in Ascending(m, n)
  {
    if n > 0 {
      AscendingMembers(m, n - 1);
    }
  }

  /** The enumeration below `n` lists one record per stored key below `n`. */
  lemma {:induction false} AscendingCount<V>(m: map<nat, V>, n: nat)
    ensures |Ascending(m, n)| == |set k | k in m && k < n|
  {
    if n > 0 {
      AscendingCount(m, n - 1);
      var below := set k | k in m && k < n - 1;
      if n - 1 in m {
        assert (set k | k in m && k < n) == below + {n - 1};
      } else {
        assert (set k | k in m && k < n) == below;
      }
    }
  }

  /** The enumeration below `n` sees only the keys below `n`. */
  lemma {:induction false} AscendingFrame<V>(m: map<nat, V>, m': map<nat, V>, n: nat)
    requires forall k :: k < n ==> (k in m <==> k in m')
    requires forall k :: k < n && k in m ==> m[k] == m'[k]
    ensures Ascending(m, n) == Ascending(m', n)
  {
    if n > 0 {
      AscendingFrame(m, m', n - 1);
    }
  }

  /** Storing a record under the next generated key appends it to `getAll()`. */
  lemma AscendingPush<V>(m: map<nat, V>, n: nat, v: V)
    requires KeysBelow(m, n)
    ensures Ascending(m[n := v], n + 1) == Ascending(m, n) + [v]
  {
    AscendingFrame(m, m[n := v], n);
  }

  /** Enumerating over a larger bound adds nothing when all keys are below the smaller one. */
  lemma {:induction false} AscendingBound<V>(m: map<nat, V>, n: nat, n': nat)
    requires KeysBelow(m, n) && n <= n'
    ensures Ascending(m, n') == Ascending(m, n)
    decreases n' - n
  {
    if n' > n {
      AscendingBound(m, n, n' - 1);
    }
  }

  /** When every record is stored under its own key, `getAll()` lists the
      records in strictly increasing key order, all below `n`. */
  lemma {:induction false} AscendingIncreasing<V>(m: map<nat, V>, n: nat, key: V -> nat)
    requires forall k :: k in m ==> key(m[k]) == k
    ensures forall v :: v in Ascending(m, n) ==> key(v) < n
    ensures forall i, j :: 0 <= i < j < |Ascending(m, n)| ==> key(Ascending(m, n)[i]) < key(Ascending(m, n)[j])
  {
    if n > 0 {
      AscendingIncreasing(m, n - 1, key);
      var prev := Ascending(m, n - 1);
      if n - 1 in m {
        assert Ascending(m, n) == prev + [m[n - 1]];
        assert forall i :: 0 <= i < |prev| ==> prev[i] in prev;
      }
    }
  }
}
