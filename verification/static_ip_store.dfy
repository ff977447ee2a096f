/** The in-memory static-IP profile store (`InMemoryStaticIpConfigRepository`): a map
    from profile id to profile with per-record enable/disable toggles. `find_by_id` and
    `find_all` are `KeyedStore.Lookup` and `KeyedStore.Values`. No cross-record rule is
    enforced: several profiles may be enabled at once, even for one interface. */
module StaticIpStore {
  import opened Results
  import opened NetworkEntities
  import KeyedStore

  type Store = map<string, StaticIpConfig>

  const StaticIpNotFound := "Static IP config not found"

  /** Every profile is stored under its own id (what `save` always does). */
  ghost predicate WellKeyed(s: Store)
  {
    KeyedStore.KeyedBy(s, (c: StaticIpConfig) => c.id)
  }

  /** The ids of the enabled profiles. */
  function EnabledIds(s: Store): set<string>
  {
    set k | k in s && s[k].is_enabled
  }

  /** `save`: stores the profile under its id, overwriting any previous one; never
      fails. The id is enabled afterwards exactly when the saved profile is. */
  function Save(s: Store, config: StaticIpConfig): (r: Update<Store>)
    ensures r.result == Pass
    ensures KeyedStore.Lookup(r.store, config.id) == Some(config)
    ensures forall k :: k != config.id ==> KeyedStore.Lookup(r.store, k) == KeyedStore.Lookup(s, k)
    ensures EnabledIds(r.store) == EnabledIds(s) - {config.id} + (if config.is_enabled then {config.id} else {})
    ensures WellKeyed(s) ==> WellKeyed(r.store)
  {
    Update(KeyedStore.Insert(s, config.id, config), Pass)
  }

  /** `find_by_interface`: the first profile met (in unspecified map order) whose
      interface name is `name`, and none exactly when no profile names that interface. */
  method FindByInterface(s: Store, name: string) returns (r: Option<StaticIpConfig>)
    ensures r.Some? ==> r.value.interface_name == name && r.value in s.Values
    ensures r.None? <==> forall k :: k in s ==> s[k].interface_name != name
  {
    var all := KeyedStore.Values(s, (c: StaticIpConfig) => c.id);
    r := KeyedStore.FindFirst(all, (c: StaticIpConfig) => c.interface_name == name);
    if r.None? {
      forall k | k in s ensures s[k].interface_name != name {
        assert s[k] in all;
      }
    }
  }

  /** Sets the enabled flag of exactly the profile `id`; an unknown id fails with the
      store unchanged. Shared by `enable` and `disable`, which differ only in the flag. */
  function SetEnabled(s: Store, id: string, enabled: bool): (r: Update<Store>)
    ensures r.store.Keys == s.Keys
    ensures id in s ==> r.result == Pass && r.store[id] == s[id].(is_enabled := enabled)
    ensures forall k :: k in s && k != id ==> r.store[k] == s[k]
    ensures id !in s ==> r.result == Fail(StaticIpNotFound) && r.store == s
  {
    if id in s then Update(s[id := s[id].(is_enabled := enabled)], Pass)
    else Update(s, Fail(StaticIpNotFound))
  }

  /** `enable`: the target profile is enabled, no other profile changes. */
  function Enable(s: Store, id: string): (r: Update<Store>)
    ensures r.store.Keys == s.Keys
    ensures id in s ==> r.result == Pass && EnabledIds(r.store) == EnabledIds(s) + {id}
    ensures id in s ==> r.store[id] == s[id].(is_enabled := true)
    ensures forall k :: k in s && k != id ==> r.store[k] == s[k]
    ensures id !in s ==> r.result == Fail(StaticIpNotFound) && r.store == s
  {
    SetEnabled(s, id, true)
  }

  /** `disable`: the target profile is disabled, no other profile changes. */
  function Disable(s: Store, id: string): (r: Update<Store>)
    ensures r.store.Keys == s.Keys
    ensures id in s ==> r.result == Pass && EnabledIds(r.store) == EnabledIds(s) - {id}
    ensures id in s ==> r.store[id] == s[id].(is_enabled := false)
    ensures forall k :: k in s && k != id ==> r.store[k] == s[k]
    ensures id !in s ==> r.result == Fail(StaticIpNotFound) && r.store == s
  {
    SetEnabled(s, id, false)
  }

  /** `delete`: removes the id if present, otherwise changes nothing; never fails. */
  function Delete(s: Store, id: string): (r: Update<Store>)
    ensures r.result == Pass
    ensures r.store.Keys == s.Keys - {id}
    ensures forall k :: k in r.store ==> r.store[k] == s[k]
    ensures EnabledIds(r.store) == EnabledIds(s) - {id}
    ensures WellKeyed(s) ==> WellKeyed(r.store)
  {
    Update(KeyedStore.Remove(s, id), Pass)
  }

  /** Disabling undoes enabling: a profile that was disabled comes back exactly as it was. */
  lemma EnableThenDisable(s: Store, id: string)
    requires id in s && !s[id].is_enabled
    ensures Disable(Enable(s, id).store, id).store == s
  {
  }
}
