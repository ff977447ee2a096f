/** The in-memory WiFi profile store (`InMemoryWifiConfigRepository`): a map from
    profile id to profile. `find_by_id` and `find_all` are `KeyedStore.Lookup` and
    `KeyedStore.Values`. Every operation holds the store's write or read lock for its
    whole duration, so each one is a single step on the map. */
module WifiStore {
  import opened Results
  import opened NetworkEntities
  import KeyedStore

  type Store = map<string, WifiConfig>

  const WifiNotFound := "WiFi config not found"

  /** Every profile is stored under its own id (what `save` always does). */
  ghost predicate WellKeyed(s: Store)
  {
    KeyedStore.KeyedBy(s, (c: WifiConfig) => c.id)
  }

  /** The ids of the active profiles. */
  function ActiveIds(s: Store): set<string>
  {
    set k | k in s && s[k].is_active
  }

  /** The store's invariant: at most one profile is active. */
  predicate AtMostOneActive(s: Store)
  {
    forall a, b :: a in s && b in s && s[a].is_active && s[b].is_active ==> a == b
  }

  /** `a` is `b` except possibly for its active flag. */
  predicate SameExceptActive(a: WifiConfig, b: WifiConfig)
  {
    a.(is_active := b.is_active) == b
  }

  /** `save`: stores the profile under its id, overwriting any previous one; never
      fails. The id is active afterwards exactly when the saved profile is, so saving
      an inactive profile (as every freshly created one is) keeps the invariant. */
  function Save(s: Store, config: WifiConfig): (r: Update<Store>)
    ensures r.result == Pass
    ensures KeyedStore.Lookup(r.store, config.id) == Some(config)
    ensures forall k :: k != config.id ==> KeyedStore.Lookup(r.store, k) == KeyedStore.Lookup(s, k)
    ensures ActiveIds(r.store) == ActiveIds(s) - {config.id} + (if config.is_active then {config.id} else {})
    ensures AtMostOneActive(s) && !config.is_active ==> AtMostOneActive(r.store)
    ensures WellKeyed(s) ==> WellKeyed(r.store)
  {
    Update(KeyedStore.Insert(s, config.id, config), Pass)
  }

  /** `find_active`: some active profile if there is one, and none exactly when no
      profile is active. Under the store invariant the answer is the unique active profile. */
  method FindActive(s: Store) returns (r: Option<WifiConfig>)
    ensures r.Some? ==> r.value.is_active && r.value in s.Values
    ensures r.None? <==> ActiveIds(s) == {}
    ensures r.Some? && AtMostOneActive(s) ==> forall k :: k in ActiveIds(s) ==> s[k] == r.value
  {
    var all := KeyedStore.Values(s, (c: WifiConfig) => c.id);
    r := KeyedStore.FindFirst(all, (c: WifiConfig) => c.is_active);
    if r.None? {
      forall k | k in s ensures !s[k].is_active {
        assert s[k] in all;
      }
    } else {
      var k :| k in s && s[k] == r.value;
      assert k in ActiveIds(s);
    }
  }

  /** `set_active`: clears the active flag on every profile, then sets it on `id`.
      Only active flags change. On an unknown id it fails, and every profile is left
      inactive; either way at most one profile is active afterwards. */
  function SetActive(s: Store, id: string): (r: Update<Store>)
    ensures r.store.Keys == s.Keys
    ensures forall k :: k in s ==> SameExceptActive(r.store[k], s[k])
    ensures id in s ==> r.result == Pass && ActiveIds(r.store) == {id}
    ensures id !in s ==> r.result == Fail(WifiNotFound) && ActiveIds(r.store) == {}
    ensures AtMostOneActive(r.store)
  {
    var cleared := map k | k in s :: s[k].(is_active := false);
    if id in cleared then
      var t := cleared[id := cleared[id].(is_active := true)];
      assert forall k :: k in t && t[k].is_active ==> k == id;
      Update(t, Pass)
    else
      Update(cleared, Fail(WifiNotFound))
  }

  /** `delete`: removes the id if present, otherwise changes nothing; never fails.
      The invariant is kept. */
  function Delete(s: Store, id: string): (r: Update<Store>)
    ensures r.result == Pass
    ensures r.store.Keys == s.Keys - {id}
    ensures forall k :: k in r.store ==> r.store[k] == s[k]
    ensures ActiveIds(r.store) == ActiveIds(s) - {id}
    ensures AtMostOneActive(s) ==> AtMostOneActive(r.store)
    ensures WellKeyed(s) ==> WellKeyed(r.store)
  {
    Update(KeyedStore.Remove(s, id), Pass)
  }

  /** The at-most-one-active invariant holds exactly when at most one id is active. */
  lemma ActiveIdsSingleton(s: Store)
    ensures |ActiveIds(s)| <= 1 <==> AtMostOneActive(s)
  {
    if !AtMostOneActive(s) {
      var a, b :| a in s && b in s && s[a].is_active && s[b].is_active && a != b;
      assert {a, b} <= ActiveIds(s);
      assert |{a, b}| == 2;
      SubsetCardinality({a, b}, ActiveIds(s));
    } else if ActiveIds(s) != {} {
      var a :| a in ActiveIds(s);
      assert ActiveIds(s) == {a};
    }
  }

  /** A subset is no larger than its superset. */
  lemma SubsetCardinality<T>(a: set<T>, b: set<T>)
    requires a <= b
    ensures |a| <= |b|
  {
    assert b == a + (b - a);
  }
}
