/** The network configuration service (`NetworkConfigServiceImpl`): creates fresh
    profiles and delegates everything else to the two profile stores, the interface
    repository and the scan sanitiser. The service's state is the contents of its two
    stores; fresh ids and creation times are supplied by the caller. */
module NetworkService {
  import opened Results
  import opened NetworkEntities
  import KeyedStore
  import WifiStore
  import StaticIpStore
  import NetworkInterfaces
  import WifiScan

  datatype Service = Service(wifi: WifiStore.Store, staticIp: StaticIpStore.Store)

  /** The service at start-up: both stores empty. */
  function Empty(): (r: Service)
    ensures r.wifi == map[] && r.staticIp == map[]
    ensures WifiStore.ActiveIds(r.wifi) == {} && StaticIpStore.EnabledIds(r.staticIp) == {}
    ensures Valid(r)
  {
    Service(map[], map[])
  }

  /** A freshly created profile together with the service that now stores it. */
  datatype Created<+T> = Created(service: Service, config: T)

  /** `create_wifi_config`: a new inactive profile with the given fields, stored under its id. */
  function CreateWifiConfig(svc: Service, id: string, now: Timestamp, ssid: string,
                            password: string, security_type: WifiSecurityType): (r: Created<WifiConfig>)
    ensures r.config.id == id && r.config.created_at == now && !r.config.is_active
    ensures r.config.ssid == ssid && r.config.password == password
    ensures r.config.security_type == security_type
    ensures KeyedStore.Lookup(r.service.wifi, id) == Some(r.config)
    ensures forall k :: k != id ==> KeyedStore.Lookup(r.service.wifi, k) == KeyedStore.Lookup(svc.wifi, k)
    ensures r.service.staticIp == svc.staticIp
  {
    var config := NewWifiConfig(id, ssid, password, security_type, now);
    Created(svc.(wifi := WifiStore.Save(svc.wifi, config).store), config)
  }

  /** `get_wifi_configs`: every stored profile once, in unspecified order. */
  method GetWifiConfigs(svc: Service) returns (r: seq<WifiConfig>)
    ensures |r| == |svc.wifi|
    ensures forall c :: c in r <==> c in svc.wifi.Values
    ensures Valid(svc) ==> forall i, j :: 0 <= i < j < |r| ==> r[i].id != r[j].id
  {
    r := KeyedStore.Values(svc.wifi, (c: WifiConfig) => c.id);
  }

  /** `get_active_wifi_config` */
  method GetActiveWifiConfig(svc: Service) returns (r: Option<WifiConfig>)
    ensures r.Some? ==> r.value.is_active && r.value in svc.wifi.Values
    ensures r.None? <==> WifiStore.ActiveIds(svc.wifi) == {}
  {
    r := WifiStore.FindActive(svc.wifi);
  }

  /** `activate_wifi_config`: on success exactly the profile `id` is active; on an
      unknown id it fails and no profile is left active. Static-IP profiles are untouched. */
  function ActivateWifiConfig(svc: Service, id: string): (r: Update<Service>)
    ensures r.store.staticIp == svc.staticIp
    ensures r.store.wifi.Keys == svc.wifi.Keys
    ensures forall k :: k in svc.wifi ==> WifiStore.SameExceptActive(r.store.wifi[k], svc.wifi[k])
    ensures id in svc.wifi ==> r.result == Pass && WifiStore.ActiveIds(r.store.wifi) == {id}
    ensures id !in svc.wifi ==> r.result == Fail(WifiStore.WifiNotFound)
    ensures id !in svc.wifi ==> WifiStore.ActiveIds(r.store.wifi) == {}
  {
    var u := WifiStore.SetActive(svc.wifi, id);
    Update(svc.(wifi := u.store), u.result)
  }

  /** `delete_wifi_config`: never fails; only the WiFi profile `id` disappears. */
  function DeleteWifiConfig(svc: Service, id: string): (r: Update<Service>)
    ensures r.result == Pass && r.store.staticIp == svc.staticIp
    ensures r.store.wifi.Keys == svc.wifi.Keys - {id}
    ensures forall k :: k in r.store.wifi ==> r.store.wifi[k] == svc.wifi[k]
  {
    var u := WifiStore.Delete(svc.wifi, id);
    Update(svc.(wifi := u.store), u.result)
  }

  /** `create_static_ip_config`: a new disabled profile with the given fields, stored under its id. */
  function CreateStaticIpConfig(svc: Service, id: string, now: Timestamp, interface_name: string,
                                ip_address: string, subnet_mask: string, gateway: string,
                                dns_primary: string, dns_secondary: Option<string>): (r: Created<StaticIpConfig>)
    ensures r.config.id == id && r.config.created_at == now && !r.config.is_enabled
    ensures r.config.interface_name == interface_name && r.config.ip_address == ip_address
    ensures r.config.subnet_mask == subnet_mask && r.config.gateway == gateway
    ensures r.config.dns_primary == dns_primary && r.config.dns_secondary == dns_secondary
    ensures KeyedStore.Lookup(r.service.staticIp, id) == Some(r.config)
    ensures forall k :: k != id ==>
              KeyedStore.Lookup(r.service.staticIp, k) == KeyedStore.Lookup(svc.staticIp, k)
    ensures r.service.wifi == svc.wifi
  {
    var config := NewStaticIpConfig(id, interface_name, ip_address, subnet_mask, gateway,
                                    dns_primary, dns_secondary, now);
    Created(svc.(staticIp := StaticIpStore.Save(svc.staticIp, config).store), config)
  }

  /** `get_static_ip_configs`: every stored profile once, in unspecified order. */
  method GetStaticIpConfigs(svc: Service) returns (r: seq<StaticIpConfig>)
    ensures |r| == |svc.staticIp|
    ensures forall c :: c in r <==> c in svc.staticIp.Values
    ensures Valid(svc) ==> forall i, j :: 0 <= i < j < |r| ==> r[i].id != r[j].id
  {
    r := KeyedStore.Values(svc.staticIp, (c: StaticIpConfig) => c.id);
  }

  /** `enable_static_ip`: only the enabled flag of profile `id` changes; unknown ids fail. */
  function EnableStaticIp(svc: Service, id: string): (r: Update<Service>)
    ensures r.store.wifi == svc.wifi
    ensures id in svc.staticIp ==> r.result == Pass
    ensures id in svc.staticIp ==>
              StaticIpStore.EnabledIds(r.store.staticIp) == StaticIpStore.EnabledIds(svc.staticIp) + {id}
    ensures r.store.staticIp.Keys == svc.staticIp.Keys
    ensures id in svc.staticIp ==> r.store.staticIp[id] == svc.staticIp[id].(is_enabled := true)
    ensures forall k :: k in svc.staticIp && k != id ==> r.store.staticIp[k] == svc.staticIp[k]
    ensures id !in svc.staticIp ==> r == Update(svc, Fail(StaticIpStore.StaticIpNotFound))
  {
    var u := StaticIpStore.Enable(svc.staticIp, id);
    Update(svc.(staticIp := u.store), u.result)
  }

  /** `disable_static_ip`: only the enabled flag of profile `id` changes; unknown ids fail. */
  function DisableStaticIp(svc: Service, id: string): (r: Update<Service>)
    ensures r.store.wifi == svc.wifi
    ensures id in svc.staticIp ==> r.result == Pass
    ensures id in svc.staticIp ==>
              StaticIpStore.EnabledIds(r.store.staticIp) == StaticIpStore.EnabledIds(svc.staticIp) - {id}
    ensures r.store.staticIp.Keys == svc.staticIp.Keys
    ensures id in svc.staticIp ==> r.store.staticIp[id] == svc.staticIp[id].(is_enabled := false)
    ensures forall k :: k in svc.staticIp && k != id ==> r.store.staticIp[k] == svc.staticIp[k]
    ensures id !in svc.staticIp ==> r == Update(svc, Fail(StaticIpStore.StaticIpNotFound))
  {
    var u := StaticIpStore.Disable(svc.staticIp, id);
    Update(svc.(staticIp := u.store), u.result)
  }

  /** `delete_static_ip_config`: never fails; only the static-IP profile `id` disappears. */
  function DeleteStaticIpConfig(svc: Service, id: string): (r: Update<Service>)
    ensures r.result == Pass && r.store.wifi == svc.wifi
    ensures r.store.staticIp.Keys == svc.staticIp.Keys - {id}
    ensures forall k :: k in r.store.staticIp ==> r.store.staticIp[k] == svc.staticIp[k]
  {
    var u := StaticIpStore.Delete(svc.staticIp, id);
    Update(svc.(staticIp := u.store), u.result)
  }

  /** Where the interface listing comes from: the fixed mock repository, or a host
      repository whose answer (a listing or an error) is an input of the model. */
  datatype InterfaceSource = MockInterfaces | HostInterfaces(listing: Result<seq<NetworkInterface>>)

  /** `get_network_interfaces`: the injected repository's answer, passed on unchanged,
      errors included. Only a host repository can fail; the mock yields eth0, wlan0, lo. */
  function GetNetworkInterfaces(source: InterfaceSource): (r: Result<seq<NetworkInterface>>)
    ensures source.HostInterfaces? ==> r == source.listing
    ensures r.Failure? ==> source.HostInterfaces?
    ensures source.MockInterfaces? ==>
              r.Success? && |r.value| == 3
              && r.value[0].name == "eth0" && r.value[0].interface_type == Ethernet
              && r.value[1].name == "wlan0" && r.value[1].interface_type == Wireless
              && r.value[2].name == "lo" && r.value[2].interface_type == Loopback
  {
    match source
    case MockInterfaces => NetworkInterfaces.GetInterfaces()
    case HostInterfaces(listing) => listing
  }

  /** Every state-changing request the service accepts. */
  datatype Command =
    | CreateWifi(id: string, now: Timestamp, ssid: string, password: string,
                 security_type: WifiSecurityType)
    | ActivateWifi(id: string)
    | DeleteWifi(id: string)
    | CreateStaticIp(id: string, now: Timestamp, interface_name: string, ip_address: string,
                     subnet_mask: string, gateway: string, dns_primary: string,
                     dns_secondary: Option<string>)
    | EnableStatic(id: string)
    | DisableStatic(id: string)
    | DeleteStatic(id: string)

  /** The service after one request (its result is dropped: a failed activation still
      changes state). Every request keeps the invariant. */
  function Apply(svc: Service, cmd: Command): (r: Service)
    ensures Valid(svc) ==> Valid(r)
  {
    match cmd
    case CreateWifi(id, now, ssid, password, security_type) =>
      CreateWifiConfig(svc, id, now, ssid, password, security_type).service
    case ActivateWifi(id) => ActivateWifiConfig(svc, id).store
    case DeleteWifi(id) => DeleteWifiConfig(svc, id).store
    case CreateStaticIp(id, now, interface_name, ip_address, subnet_mask, gateway, dns_primary, dns_secondary) =>
      CreateStaticIpConfig(svc, id, now, interface_name, ip_address, subnet_mask, gateway,
                           dns_primary, dns_secondary).service
    case EnableStatic(id) => EnableStaticIp(svc, id).store
    case DisableStatic(id) => DisableStaticIp(svc, id).store
    case DeleteStatic(id) => DeleteStaticIpConfig(svc, id).store
  }

  /** The service after a sequence of requests, served one at a time. */
  function Run(svc: Service, cmds: seq<Command>): Service
    decreases |cmds|
  {
    if |cmds| == 0 then svc else Run(Apply(svc, cmds[0]), cmds[1..])
  }

  /** The service's invariant: at most one active WiFi profile, every profile under its own id. */
  ghost predicate Valid(svc: Service)
  {
    WifiStore.AtMostOneActive(svc.wifi) && WifiStore.WellKeyed(svc.wifi)
    && StaticIpStore.WellKeyed(svc.staticIp)
  }

  /** Any sequence of requests from a valid state, in particular from `Empty()`, keeps at
      most one WiFi profile active. */
  lemma {:induction false} RunKeepsValid(svc: Service, cmds: seq<Command>)
    requires Valid(svc)
    ensures Valid(Run(svc, cmds))
    decreases |cmds|
  {
    if |cmds| > 0 {
      RunKeepsValid(Apply(svc, cmds[0]), cmds[1..]);
    }
  }

  /** From start-up, any sequence of requests leaves at most one WiFi profile active. */
  lemma FromEmptyAtMostOneActive(cmds: seq<Command>)
    ensures WifiStore.AtMostOneActive(Run(Empty(), cmds).wifi)
  {
    RunKeepsValid(Empty(), cmds);
  }

  /** After a successful activation, whatever came before, exactly that profile is active. */
  lemma ActivateAfterRun(cmds: seq<Command>, id: string)
    requires id in Run(Empty(), cmds).wifi
    ensures WifiStore.ActiveIds(Run(Empty(), cmds + [ActivateWifi(id)]).wifi) == {id}
  {
    RunAppend(Empty(), cmds, [ActivateWifi(id)]);
  }

  lemma {:induction false} RunAppend(svc: Service, a: seq<Command>, b: seq<Command>)
    ensures Run(svc, a + b) == Run(Run(svc, a), b)
    decreases |a|
  {
    if |a| == 0 {
      assert a + b == b;
    } else {
      assert (a + b)[1..] == a[1..] + b;
      RunAppend(Apply(svc, a[0]), a[1..], b);
    }
  }
}
