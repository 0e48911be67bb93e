/** Insertion-ordered maps: setting a present key keeps its place, a new key goes to the end. */
module JsMap {

  datatype Option<+T> = None | Some(value: T)

  type OrderedMap<K, V> = seq<(K, V)>

  ghost predicate Unique<K, V>(m: OrderedMap<K, V>) {
    forall i, j | 0 <= i < j < |m| :: m[i].0 != m[j].0
  }

  /** The place of a key, or the size of the map. */
  function Index<K(==), V>(m: OrderedMap<K, V>, k: K): (i: nat)
    ensures i <= |m|
    ensures i < |m| ==> m[i].0 == k
    ensures forall j | 0 <= j < i :: m[j].0 != k
  {
    if m == [] || m[0].0 == k then 0 else 1 + Index(m[1..], k)
  }

  predicate Has<K(==), V>(m: OrderedMap<K, V>, k: K) {
    Index(m, k) < |m|
  }

  function Get<K(==), V>(m: OrderedMap<K, V>, k: K): V
    requires Has(m, k)
  {
    m[Index(m, k)].1
  }

  function Find<K(==), V>(m: OrderedMap<K, V>, k: K): Option<V> {
    if Has(m, k) then Some(Get(m, k)) else None
  }

  function Put<K(==), V>(m: OrderedMap<K, V>, k: K, v: V): OrderedMap<K, V> {
    if Has(m, k) then m[Index(m, k) := (k, v)] else m + [(k, v)]
  }

  lemma {:induction false} IndexAt<K, V>(m: OrderedMap<K, V>, i: nat)
    requires Unique(m) && i < |m|
    ensures Index(m, m[i].0) == i && Get(m, m[i].0) == m[i].1
  {
    assert !(Index(m, m[i].0) < i);
  }

  /** Putting a key makes it the only one whose value changes. */
  lemma {:induction false} PutFind<K, V>(m: OrderedMap<K, V>, k: K, v: V, l: K)
    ensures Find(Put(m, k, v), l) == if l == k then Some(v) else Find(m, l)
  {
    var n, r, i := Put(m, k, v), Index(m, l), Index(Put(m, k, v), l);
    if l == k {
      assert n[Index(m, k)] == (k, v);
    } else if r < |m| {
      assert n[r] == m[r];
    }
  }

  /** Putting a present key moves nothing; a new key comes last. */
  lemma {:induction false} PutOrder<K, V>(m: OrderedMap<K, V>, k: K, v: V)
    ensures |Put(m, k, v)| == if Has(m, k) then |m| else |m| + 1
    ensures forall i | 0 <= i < |m| :: Put(m, k, v)[i] == if i == Index(m, k) then (k, v) else m[i]
    ensures !Has(m, k) ==> Put(m, k, v)[|m|] == (k, v)
  {
  }
}
