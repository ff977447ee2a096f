# Network configuration manager — Dafny model

This project models the in-memory core of a small host-side network configuration
manager written in Rust. It covers five parts:

- the WiFi profile store (`InMemoryWifiConfigRepository`). Its central rule is that at
  most one profile is active, and `set_active` is the operation that sets the flag;
- the static-IP profile store (`InMemoryStaticIpConfigRepository`), with per-record
  enable/disable toggles;
- the mock interface repository (`MockNetworkInterfaceRepository`);
- the service (`NetworkConfigServiceImpl`). It creates fresh inactive or disabled
  profiles, delegates everything else to the stores, and sanitises WiFi scan results;
- and the greeting key-value store (`InMemoryGreetingRepository`).

Each store is a `map<string, Record>` from id to record. In the source, every store
operation holds the store's lock for its whole duration. So each operation is modelled
as one pure step: a function from the old map to the new map plus the returned
`Outcome` (`Pass`, or `Fail(message)`). Read operations that always return `Ok` are
modelled by their payload. `find_all`, `find_active` and `find_by_interface` walk a
`HashMap` in an unspecified order. They are methods that visit the keys in a
nondeterministic order (`KeyedStore.Values`); the two finds then take the first match
(`KeyedStore.FindFirst`).

Modules: `Results` (Option / Outcome / Result), `KeyedStore` (the map operations all
stores share), `NetworkEntities`, `WifiStore`, `StaticIpStore`, `NetworkInterfaces`,
`WifiScan`, `NetworkService`, `GreetingStore`.

Things the model takes from its caller:

- ids and creation times. In the source these are a random UUID v4 and the wall clock.
  The model needs no freshness guarantee, because `save` overwrites in any case.
- the host WiFi scan. It is an input `ScanOutcome`: either the raw entries or the
  rendered error.

## Model

| member | source | states |
|---|---|---|
| `KeyedStore.Lookup` | src/infrastructure/network_repositories.rs:37-40 | `find_by_id` of every store: a record is found exactly when the id is stored, and it is the stored one |
| `KeyedStore.Insert` | src/infrastructure/network_repositories.rs:31-35 | after insertion the id looks up to the new record, every other id looks up as before, and the key set grows by exactly that id |
| `KeyedStore.Remove` | src/infrastructure/network_repositories.rs:69-73 | after removal the id is absent and every other id looks up as before; removing an absent id leaves the map unchanged |
| `KeyedStore.RemoveIdempotent` | src/infrastructure/network_repositories.rs:138-142 | deleting an id twice equals deleting it once, in every store |
| `KeyedStore.Values` | src/infrastructure/network_repositories.rs:42-45 | `find_all` of every store: as many entries as stored records, every stored record appears and nothing else; when records are stored under their own ids, ids in the result are pairwise distinct and each names its record |
| `KeyedStore.FindIndex` | src/infrastructure/network_repositories.rs:49 | the index found is the FIRST entry satisfying the predicate; none is found exactly when no entry satisfies it |
| `KeyedStore.FindFirst` | src/infrastructure/network_repositories.rs:110 | `Iterator::find`: the result is the FIRST entry satisfying the predicate, at a position before which no entry satisfies it; none iff no entry satisfies it |
| `NetworkEntities.NewWifiConfig` | src/domain/network_entities.rs:57-66 | a new WiFi profile is inactive and keeps ssid, password and security type as given |
| `NetworkEntities.NewStaticIpConfig` | src/domain/network_entities.rs:70-89 | a new static-IP profile is disabled and keeps all six inputs, including the optional secondary DNS, as given |
| `NetworkEntities.AllSecurityTypes` | src/domain/network_entities.rs:16-22 | there are exactly five security types: five pairwise-distinct values that cover every value |
| `NetworkEntities.AllInterfaceTypes` | src/domain/network_entities.rs:49-54 | there are exactly four interface types: four pairwise-distinct values that cover every value |
| `WifiStore.Save` | src/infrastructure/network_repositories.rs:31-35 | save never fails and makes the id look up to the config, leaving other ids as they were; the active set changes only at that id, so saving an inactive profile keeps at most one active |
| `WifiStore.FindActive` | src/infrastructure/network_repositories.rs:47-50 | the result is a stored active profile; it is none iff no profile is active; under the at-most-one invariant it is the active profile |
| `WifiStore.SetActive` | src/infrastructure/network_repositories.rs:52-67 | only active flags change and the key set is kept. On a stored id the call passes and the set of active ids is exactly {id}. On an unknown id it fails with "WiFi config not found" and no profile is left active. Either way at most one profile is active afterwards |
| `WifiStore.Delete` | src/infrastructure/network_repositories.rs:69-73 | delete never fails, removes exactly the id, leaves every other profile unchanged, loses only that id from the active set, and keeps at most one profile active |
| `WifiStore.ActiveIdsSingleton` | src/infrastructure/network_repositories.rs:52-63 | the at-most-one-active invariant holds iff at most one id is active |
| `StaticIpStore.Save` | src/infrastructure/network_repositories.rs:97-101 | save never fails and makes the id look up to the config, leaving other ids as they were; the enabled set changes only at that id |
| `StaticIpStore.FindByInterface` | src/infrastructure/network_repositories.rs:108-111 | the result is a stored profile whose interface name matches; it is none iff no stored profile names that interface |
| `StaticIpStore.SetEnabled` | src/infrastructure/network_repositories.rs:118-136 | on a stored id only that record's enabled flag changes, to the requested value; an unknown id fails with "Static IP config not found" and the map is unchanged |
| `StaticIpStore.Enable` | src/infrastructure/network_repositories.rs:118-126 | on a stored id the enabled set gains exactly that id and no other record changes; an unknown id fails with the map unchanged |
| `StaticIpStore.Disable` | src/infrastructure/network_repositories.rs:128-136 | on a stored id the enabled set loses exactly that id and no other record changes; an unknown id fails with the map unchanged |
| `StaticIpStore.Delete` | src/infrastructure/network_repositories.rs:138-142 | delete never fails, removes exactly the id, leaves every other profile unchanged, and loses only that id from the enabled set |
| `StaticIpStore.EnableThenDisable` | src/infrastructure/network_repositories.rs:118-136 | disabling a freshly enabled, previously disabled profile restores the store exactly |
| `NetworkInterfaces.GetInterfaces` | src/infrastructure/network_repositories.rs:162-187 | the mock listing never fails and yields eth0 (Ethernet), wlan0 (Wireless) and lo (Loopback), each up with an address |
| `NetworkInterfaces.GetInterfaceByName` | src/infrastructure/network_repositories.rs:189-192 | an interface is found iff the name is one of the three mock names, and the one found has that name and is in the listing |
| `WifiScan.OrUnknown` | src/domain/network_services.rs:134-136 | the result is never empty: a non-empty field is kept and an empty one becomes "Unknown" |
| `WifiScan.Clean` | src/domain/network_services.rs:132-138 | a kept entry becomes a complete record: ssid, signal level and security pass through unchanged, and mac and channel default to "Unknown" |
| `WifiScan.Sanitize` | src/domain/network_services.rs:124-141 | the output is no longer than the input; every output entry has a non-empty ssid, mac and channel; nothing is dropped when every ssid is non-empty |
| `WifiScan.ScanWifiNetworks` | src/domain/network_services.rs:121-146 | the call succeeds iff the scan succeeded, and then returns the sanitised list; a failed scan yields only the message "WiFi scan failed: " followed by the cause |
| `WifiScan.SanitizeAppend` | src/domain/network_services.rs:124-141 | sanitising distributes over concatenation of raw scans |
| `WifiScan.Survivors` | src/domain/network_services.rs:129-130 | the kept positions, in increasing order, are exactly the positions whose ssid is non-empty |
| `WifiScan.SanitizeIsCleanedSurvivors` | src/domain/network_services.rs:124-141 | the output is the cleaned kept entries in scan order: an order-preserving subsequence that drops exactly the empty-ssid entries |
| `WifiScan.AsRaw` | src/domain/network_services.rs:132-138 | a complete sanitised entry, read back as raw, is kept and cleans back to itself |
| `WifiScan.SanitizeComplete` | src/domain/network_services.rs:124-141 | sanitising entries that are already complete changes nothing |
| `WifiScan.SanitizeIdempotent` | src/domain/network_services.rs:124-141 | sanitising twice equals sanitising once |
| `NetworkService.Empty` | src/infrastructure/network_repositories.rs:16-20 | the service starts with both stores empty, so no WiFi profile is active, no static-IP profile is enabled, and the service invariant holds |
| `NetworkService.CreateWifiConfig` | src/domain/network_services.rs:56-60 | the new profile has the given id, creation time, ssid, password and security type and is inactive; the WiFi store then maps its id to it and no other id changes; the static-IP store is untouched |
| `NetworkService.GetWifiConfigs` | src/domain/network_services.rs:62-64 | the list holds exactly the stored WiFi profiles, with pairwise distinct ids in a valid service |
| `NetworkService.GetActiveWifiConfig` | src/domain/network_services.rs:66-68 | the result is a stored active profile, and it is none iff no profile is active |
| `NetworkService.ActivateWifiConfig` | src/domain/network_services.rs:70-72 | only active flags of WiFi profiles change and the ids are kept. On a stored id exactly that profile is active afterwards. On an unknown id the call fails and none is active. Static-IP profiles are untouched |
| `NetworkService.DeleteWifiConfig` | src/domain/network_services.rs:74-76 | the call never fails and removes only that WiFi profile |
| `NetworkService.CreateStaticIpConfig` | src/domain/network_services.rs:78-97 | the new profile has the given id, creation time and six fields and is disabled; the static-IP store then maps its id to it and no other id changes; the WiFi store is untouched |
| `NetworkService.GetStaticIpConfigs` | src/domain/network_services.rs:99-101 | the list holds exactly the stored static-IP profiles, with pairwise distinct ids in a valid service |
| `NetworkService.EnableStaticIp` | src/domain/network_services.rs:105-107 | on a stored id only that record's enabled flag changes, to true; every other record, every id and the WiFi store are unchanged. An unknown id fails and the service is unchanged |
| `NetworkService.DisableStaticIp` | src/domain/network_services.rs:109-111 | on a stored id only that record's enabled flag changes, to false; every other record, every id and the WiFi store are unchanged. An unknown id fails and the service is unchanged |
| `NetworkService.DeleteStaticIpConfig` | src/domain/network_services.rs:113-115 | the call never fails and removes only that static-IP profile |
| `NetworkService.GetNetworkInterfaces` | src/domain/network_services.rs:117-119 | the injected repository's answer is passed on unchanged, errors included; only a host repository can fail, and the mock yields eth0 (Ethernet), wlan0 (Wireless) and lo (Loopback) |
| `NetworkService.Apply` | src/domain/network_services.rs:56-115 | each create, activate, enable, disable or delete request keeps at most one WiFi profile active and every profile stored under its own id |
| `NetworkService.RunKeepsValid` | src/domain/network_services.rs:56-115 | any sequence of requests from a valid state keeps at most one WiFi profile active and every profile stored under its own id |
| `NetworkService.FromEmptyAtMostOneActive` | src/domain/network_services.rs:56-115 | any sequence of create, activate, enable, disable and delete requests from the empty start-up state leaves at most one WiFi profile active |
| `NetworkService.RunAppend` | src/domain/network_services.rs:56-115 | serving two request sequences one after the other equals serving their concatenation |
| `NetworkService.ActivateAfterRun` | src/domain/network_services.rs:70-72 | after any history of requests, a successful activation leaves exactly that profile active |
| `GreetingStore.Empty` | src/infrastructure/repositories.rs:15-21 | the store starts with no greetings: every lookup finds nothing, and every greeting (vacuously) sits under its own id |
| `GreetingStore.Save` | src/infrastructure/repositories.rs:31-35 | save never fails, makes `find_by_id(greeting.id)` return the greeting, overwriting any earlier entry, and leaves other ids untouched |
| `GreetingStore.FindAll` | src/infrastructure/repositories.rs:42-45 | the list has one entry per key, holds every stored greeting and nothing else; in a store keyed by greeting id, which every store reached from start-up is, ids are pairwise distinct and each names its stored greeting |
| `GreetingStore.Delete` | src/infrastructure/repositories.rs:47-51 | delete never fails, the id is absent afterwards, other ids look up as before, and deleting an absent id changes nothing |
| `GreetingStore.FindAfterSave` | src/infrastructure/repositories.rs:31-51 | a saved greeting is still found after any later deletes of other ids |
| `GreetingStore.ReplayKeepsAbsent` | src/infrastructure/repositories.rs:31-51 | serving any sequence of save and delete requests keeps every greeting under its own id, and an id that no request saves stays absent |
| `GreetingStore.NeverSavedNotFound` | src/infrastructure/repositories.rs:37-40 | from start-up, `find_by_id` finds nothing for an id that no request saved, and the store stays keyed by greeting id |

## Left out

- Locks, `Arc` and `async` are not modelled. Each store operation runs under one write
  or read guard, so it is modelled as a single atomic step.
- UUID generation and the wall clock are not modelled. They are caller-supplied
  parameters of the create operations.
- The host WiFi scan primitive is a foreign call. Its result is the input `ScanOutcome`,
  and the debug rendering of its error is the opaque `cause` string. The raw scan
  record and `ScannedWifiNetwork` are not defined in the modelled files; both are
  modelled with text fields, and the signal level only passes through.
- Host interface discovery and name-based classification are left out. Their
  implementation is not in the modelled files: `SystemNetworkInterfaceRepository` is
  referenced in src/main.rs but defined nowhere.
- `NetworkInterfaces.GetInterfaces`: the mock literals omit the IPv4 and IPv6 address
  lists that the entity declares. They are modelled as empty lists.
- The HTTP layer, HTML pages, server start-up, the use-case wrappers and the DTO
  conversions are presentation and serialisation adapters with no logic of their own.
  This includes `WifiConfigDto` leaving out the password.
- The greeting service and `Greeting::new` are left out. They construct records or
  delegate to the store (`get_greeting` to `find_by_id`, `list_greetings` to
  `find_all`), with no logic of their own.
- The service has no operation that applies a profile to the host network stack, so
  none is modelled.
- `NetworkService.CreateWifiConfig`, `NetworkService.CreateStaticIpConfig`: these cannot
  fail. The source passes on a failure of `save`, but `save` never fails.
- Several operations exist in the implementations but not in the repository traits:
  `find_by_id` of all three stores, `find_by_interface`, `get_interface_by_name`, and
  the greeting `delete`. The model follows the implementations.
- `NetworkService.GetNetworkInterfaces`: the host interface repository is not part of
  this model. Its answer, a listing or an error, is an input that the service passes
  on unchanged. Only the mock repository's listing is stated in detail.
