/** Optional values, for the lookups and nullable fields of the other modules. */
module Options {
  datatype Option<+T> = None | Some(value: T) {
    function GetOr(default: T): T {
      match this
      case Some(v) => v
      case None => default
    }
  }

  function Lookup<K, V>(m: map<K, V>, k: K): Option<V> {
    if k in m then Some(m[k]) else None
  }

  /** The values are the present offers, in order; `at` says where each comes from. */
  ghost predicate Collects<T>(values: seq<T>, offers: seq<Option<T>>, at: seq<nat>) {
    && |at| == |values|
    && (forall i, j :: 0 <= i < j < |at| ==> at[i] < at[j])
    && (forall i :: 0 <= i < |at| ==> at[i] < |offers| && offers[at[i]] == Some(values[i]))
    && forall t: nat :: t < |offers| && offers[t].Some? ==> t in at
  }

  lemma CollectsMore<T>(values: seq<T>, offers: seq<Option<T>>, at: seq<nat>, offer: Option<T>)
    requires Collects(values, offers, at)
    ensures Collects(values + if offer.Some? then [offer.value] else [], offers + [offer],
                     at + if offer.Some? then [|offers|] else [])
  {
  }
}
