/** Python dictionaries remember the order in which their keys were first inserted, and the
    node-log analyzer's main loops walk them in that order. */
module Dicts {

  /** A dictionary with string keys: its keys in insertion order and its entries. */
  datatype Dict<V> = Dict(keys: seq<string>, entries: map<string, V>)

  /** Every key is listed once, and listed exactly when it has an entry. */
  ghost predicate WellFormed<V>(d: Dict<V>)
  {
    (forall i, j :: 0 <= i < j < |d.keys| ==> d.keys[i] != d.keys[j]) &&
    (forall k :: k in d.keys <==> k in d.entries)
  }

  /** `{}`. */
  function Empty<V>(): (d: Dict<V>)
    ensures WellFormed(d) && d.entries == map[]
  {
    Dict([], map[])
  }

  /** `d[k] = v`: a new key goes to the end of the order, an existing key keeps its place. */
  function Put<V>(d: Dict<V>, k: string, v: V): (r: Dict<V>)
    requires WellFormed(d)
    ensures WellFormed(r) && r.entries == d.entries[k := v]
    ensures k in d.entries ==> r.keys == d.keys
    ensures k !in d.entries ==> r.keys == d.keys + [k]
  {
    if k in d.entries then Dict(d.keys, d.entries[k := v]) else Dict(d.keys + [k], d.entries[k := v])
  }

  /** The entry of `k`, or `otherwise` when there is none (what `if k not in d: d[k] = {}` leaves). */
  function Lookup<V>(d: Dict<V>, k: string, otherwise: V): V
  {
    if k in d.entries then d.entries[k] else otherwise
  }
}
