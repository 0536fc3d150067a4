/**
 * A plain JavaScript object used as a dictionary with string keys. For keys
 * that are not integer-like, `Object.values` and `Object.entries` list the
 * keys in the order they were first assigned, so the object is a key list in
 * insertion order next to a map from key to value.
 */
module JsObjects {
  import opened Wrappers
  import opened Sequences

  /** The values of `m` at the keys `ks`, in the order of `ks`. */
  function Project<V>(ks: seq<string>, m: map<string, V>): (r: seq<V>)
    requires forall i :: 0 <= i < |ks| ==> ks[i] in m
    ensures |r| == |ks|
    ensures forall i :: 0 <= i < |ks| ==> r[i] == m[ks[i]]
  {
    if ks == [] then [] else [m[ks[0]]] + Project(ks[1..], m)
  }

  /** The pairs of `m` at the keys `ks`, in the order of `ks`. */
  function Pairs<V>(ks: seq<string>, m: map<string, V>): (r: seq<(string, V)>)
    requires forall i :: 0 <= i < |ks| ==> ks[i] in m
    ensures |r| == |ks|
    ensures forall i :: 0 <= i < |ks| ==> r[i] == (ks[i], m[ks[i]])
  {
    if ks == [] then [] else [(ks[0], m[ks[0]])] + Pairs(ks[1..], m)
  }

  class JsObject<V> {
    /** The own keys in insertion order. */
    var keys: seq<string>
    var values: map<string, V>

    ghost predicate Valid()
      reads this
    {
      && NoDuplicates(keys)
      && (forall k :: k in values <==> k in keys)
    }

    /** `{}` */
    constructor ()
      ensures Valid()
      ensures keys == [] && values == map[]
    {
      keys := [];
      values := map[];
    }

    /** `obj[k]`, with `None` for `undefined`. */
    function Get(k: string): (r: Option<V>)
      reads this
      ensures r.Some? <==> k in values
      ensures r.Some? ==> r.value == values[k]
      ensures Valid() ==> (r.None? <==> k !in keys)
    {
      if k in values then Some(values[k]) else None
    }

    /** `obj[k] = v`: a new key joins the end of the key order, an existing key keeps its place. */
    method Set(k: string, v: V)
      requires Valid()
      modifies this
      ensures Valid()
      ensures values == old(values)[k := v]
      ensures keys == if k in old(values) then old(keys) else old(keys) + [k]
    {
      if k !in values {
        keys := keys + [k];
      }
      values := values[k := v];
    }

    /** `Object.values(obj)` */
    function Values(): (r: seq<V>)
      reads this
      requires Valid()
      ensures |r| == |keys|
      ensures forall i :: 0 <= i < |keys| ==> r[i] == values[keys[i]]
    {
      Project(keys, values)
    }

    /** `Object.entries(obj)` */
    function Entries(): (r: seq<(string, V)>)
      reads this
      requires Valid()
      ensures |r| == |keys|
      ensures forall i :: 0 <= i < |keys| ==> r[i] == (keys[i], values[keys[i]])
    {
      Pairs(keys, values)
    }
  }
}
