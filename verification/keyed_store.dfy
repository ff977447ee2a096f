/** The map operations every in-memory repository is built from: a store is a
    `map<string, V>` from record id to record, guarded in the source by one lock, so
    each operation is a single atomic step on the map. */
module KeyedStore {
  import opened Results

  /** `storage.get(id).cloned()` */
  function Lookup<V>(m: map<string, V>, id: string): (r: Option<V>)
    ensures r.Some? <==> id in m
    ensures r.Some? ==> r.value == m[id]
  {
    if id in m then Some(m[id]) else None
  }

  /** `storage.insert(id, v)`: the id now maps to `v`; every other id looks up as before. */
  function Insert<V>(m: map<string, V>, id: string, v: V): (r: map<string, V>)
    ensures r.Keys == m.Keys + {id}
    ensures Lookup(r, id) == Some(v)
    ensures forall k :: k != id ==> Lookup(r, k) == Lookup(m, k)
  {
    m[id := v]
  }

  /** `storage.remove(id)`: the id is gone; every other id looks up as before. */
  function Remove<V>(m: map<string, V>, id: string): (r: map<string, V>)
    ensures r.Keys == m.Keys - {id}
    ensures Lookup(r, id) == None
    ensures forall k :: k != id ==> Lookup(r, k) == Lookup(m, k)
    ensures id !in m ==> r == m
  {
    m - {id}
  }

  /** Removing the same id twice is the same as removing it once. */
  lemma RemoveIdempotent<V>(m: map<string, V>, id: string)
    ensures Remove(Remove(m, id), id) == Remove(m, id)
  {
  }

  /** Every record is stored under its own id, as `save` always does. */
  ghost predicate KeyedBy<V>(m: map<string, V>, id: V -> string)
  {
    forall k :: k in m ==> id(m[k]) == k
  }

  /** `storage.values().cloned().collect()`: every stored record once, in an order the
      source leaves unspecified (a `HashMap` iteration order), so keys are picked
      nondeterministically. When records are stored under their own ids, the result
      holds one record per key: ids are pairwise distinct and each names its record. */
  method Values<V(==)>(m: map<string, V>, ghost id: V -> string) returns (vs: seq<V>)
    ensures |vs| == |m|
    ensures forall i :: 0 <= i < |vs| ==> vs[i] in m.Values
    ensures forall k :: k in m ==> m[k] in vs
    ensures KeyedBy(m, id) ==> forall i :: 0 <= i < |vs| ==> id(vs[i]) in m && m[id(vs[i])] == vs[i]
    ensures KeyedBy(m, id) ==> forall i, j :: 0 <= i < j < |vs| ==> id(vs[i]) != id(vs[j])
  {
    var rest := m.Keys;
    vs := [];
    ghost var order: seq<string> := [];
    while rest != {}
      invariant rest <= m.Keys
      invariant |vs| == |order|
      invariant |order| + |rest| == |m|
      invariant forall i :: 0 <= i < |order| ==> order[i] in m && vs[i] == m[order[i]]
      invariant forall k :: k in m ==> k in rest || k in order
      invariant forall i :: 0 <= i < |order| ==> order[i] !in rest
      invariant forall i, j :: 0 <= i < j < |order| ==> order[i] != order[j]
      decreases rest
    {
      var k :| k in rest;
      vs, order := vs + [m[k]], order + [k];
      rest := rest - {k};
    }
    forall k | k in m ensures m[k] in vs {
      var i :| 0 <= i < |order| && order[i] == k;
      assert vs[i] == m[k];
    }
  }

  /** The index of the first entry of `s` satisfying `p` (Rust's `Iterator::position`). */
  function FindIndex<V>(s: seq<V>, p: V -> bool): (r: Option<nat>)
    ensures r.Some? ==> r.value < |s| && p(s[r.value])
    ensures r.Some? ==> forall j :: 0 <= j < r.value ==> !p(s[j])
    ensures r.None? <==> forall j :: 0 <= j < |s| ==> !p(s[j])
    decreases |s|
  {
    if |s| == 0 then None
    else if p(s[0]) then Some(0)
    else match FindIndex(s[1..], p)
      case None => None
      case Some(i) => Some(i + 1)
  }

  /** The first entry of `s` satisfying `p` (Rust's `Iterator::find`). */
  function FindFirst<V>(s: seq<V>, p: V -> bool): (r: Option<V>)
    ensures r.Some? ==> r.value in s && p(r.value)
    ensures r.Some? ==> exists i :: 0 <= i < |s| && s[i] == r.value && forall j :: 0 <= j < i ==> !p(s[j])
    ensures r.None? <==> forall j :: 0 <= j < |s| ==> !p(s[j])
  {
    match FindIndex(s, p)
    case None => None
    case Some(i) => Some(s[i])
  }
}
