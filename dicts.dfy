/** A Python dict as a value: its keys in insertion order and the mapping
    itself. Iteration over a dict visits `keys` in order; assigning a new
    key appends it; assigning an existing key keeps its position; `pop`
    removes the key from both. */
module Dicts {
  import opened Sorting

  datatype Dict<K(!new), V> = Dict(keys: seq<K>, table: map<K, V>)
  {
    /** The keys list and the mapping describe the same, repetition-free
        key set. */
    ghost predicate Valid() {
      Distinct(keys) && forall k :: k in table <==> k in keys
    }
  }

  /** `{}` */
  function Empty<K(==,!new), V>(): (d: Dict<K, V>)
    ensures d.Valid() && d.keys == [] && d.table == map[]
  {
    Dict([], map[])
  }

  /** `d[k] = v`: a new key goes to the end, an existing key keeps its
      place. */
  function Store<K(==,!new), V>(d: Dict<K, V>, k: K, v: V): (r: Dict<K, V>)
    requires d.Valid()
    ensures r.Valid()
    ensures r.table == d.table[k := v]
    ensures k in d.table ==> r.keys == d.keys
    ensures k !in d.table ==> r.keys == d.keys + [k]
  {
    if k in d.table then Dict(d.keys, d.table[k := v])
    else Dict(d.keys + [k], d.table[k := v])
  }

  /** xs without the occurrences of x. */
  function Without<T(==,!new)>(xs: seq<T>, x: T): (r: seq<T>)
    ensures forall y :: y in r <==> y in xs && y != x
    ensures Distinct(xs) ==> Distinct(r)
    ensures x !in xs ==> r == xs
  {
    if xs == [] then []
    else if xs[0] == x then Without(xs[1..], x)
    else
      var rest := Without(xs[1..], x);
      if Distinct(xs) then
        ConsDistinct(xs[0], rest);
        [xs[0]] + rest
      else [xs[0]] + rest
  }

  lemma ConsDistinct<T>(a: T, xs: seq<T>)
    requires Distinct(xs) && a !in xs
    ensures Distinct([a] + xs)
  {
    forall i, j | 0 <= i < j < |[a] + xs|
      ensures ([a] + xs)[i] != ([a] + xs)[j]
    {
      if i == 0 {
        assert ([a] + xs)[j] == xs[j - 1];
      }
    }
  }

  /** The dict after `d.pop(k)` for a key k that is present. */
  function Remove<K(==,!new), V>(d: Dict<K, V>, k: K): (r: Dict<K, V>)
    requires d.Valid()
    ensures r.Valid()
    ensures r.table == map j | j in d.table && j != k :: d.table[j]
    ensures forall j :: j in r.keys <==> j in d.keys && j != k
  {
    Dict(Without(d.keys, k), map j | j in d.table && j != k :: d.table[j])
  }
}
