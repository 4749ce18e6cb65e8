/**
 * An insertion-ordered Python dictionary with integer keys: `keys` lists the
 * keys in insertion order, and writing to an existing key keeps its position.
 */
module PyDict {
  import opened Seqs

  datatype Dict<V> = Dict(keys: seq<int>, vals: map<int, V>)

  ghost predicate Valid<V>(d: Dict<V>) {
    NoDup(d.keys) && (forall k :: k in d.vals <==> k in d.keys)
  }

  function Empty<V>(): (d: Dict<V>)
    ensures Valid(d) && d.keys == [] && d.vals == map[]
  {
    Dict([], map[])
  }

  /** `d[k] = v`. */
  function Put<V>(d: Dict<V>, k: int, v: V): (r: Dict<V>)
    requires Valid(d)
    ensures Valid(r)
    ensures r.vals == d.vals[k := v]
    ensures k in d.vals ==> r.keys == d.keys
    ensures k !in d.vals ==> r.keys == d.keys + [k]
  {
    if k in d.vals then Dict(d.keys, d.vals[k := v])
    else Dict(d.keys + [k], d.vals[k := v])
  }
}
