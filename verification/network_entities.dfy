/** The network-configuration entities: WiFi profiles, static-IP profiles and
    network interfaces. Ids (a UUID v4 in the source) and creation times (the wall
    clock in the source) are supplied by the caller. */
module NetworkEntities {
  import opened Results

  datatype WifiSecurityType = Open | WEP | WPA | WPA2 | WPA3

  datatype InterfaceType = Ethernet | Wireless | Loopback | Other

  datatype WifiConfig = WifiConfig(
    id: string,
    ssid: string,
    password: string,
    security_type: WifiSecurityType,
    is_active: bool,
    created_at: Timestamp)

  datatype StaticIpConfig = StaticIpConfig(
    id: string,
    interface_name: string,
    ip_address: string,
    subnet_mask: string,
    gateway: string,
    dns_primary: string,
    dns_secondary: Option<string>,
    is_enabled: bool,
    created_at: Timestamp)

  datatype NetworkInterface = NetworkInterface(
    name: string,
    interface_type: InterfaceType,
    mac_address: string,
    is_up: bool,
    ipv4_addresses: seq<string>,
    ipv6_addresses: seq<string>,
    current_ip: Option<string>)

  /** `WifiConfig::new`: a fresh profile is never active and keeps its inputs as given. */
  function NewWifiConfig(id: string, ssid: string, password: string,
                         security_type: WifiSecurityType, now: Timestamp): (c: WifiConfig)
    ensures !c.is_active
    ensures c.id == id && c.created_at == now
    ensures c.ssid == ssid && c.password == password && c.security_type == security_type
  {
    WifiConfig(id, ssid, password, security_type, false, now)
  }

  /** `StaticIpConfig::new`: a fresh profile is never enabled and keeps all six inputs as given. */
  function NewStaticIpConfig(id: string, interface_name: string, ip_address: string,
                             subnet_mask: string, gateway: string, dns_primary: string,
                             dns_secondary: Option<string>, now: Timestamp): (c: StaticIpConfig)
    ensures !c.is_enabled
    ensures c.id == id && c.created_at == now
    ensures c.interface_name == interface_name && c.ip_address == ip_address
    ensures c.subnet_mask == subnet_mask && c.gateway == gateway
    ensures c.dns_primary == dns_primary && c.dns_secondary == dns_secondary
  {
    StaticIpConfig(id, interface_name, ip_address, subnet_mask, gateway, dns_primary,
                   dns_secondary, false, now)
  }

  /** The five security types, each listed once. */
  function AllSecurityTypes(): (r: seq<WifiSecurityType>)
    ensures |r| == 5
    ensures forall t: WifiSecurityType :: t in r
    ensures forall i, j :: 0 <= i < j < |r| ==> r[i] != r[j]
  {
    var r := [Open, WEP, WPA, WPA2, WPA3];
    forall t: WifiSecurityType ensures t in r {
      ListedSecurityType(t, r);
    }
    r
  }

  /** The four interface types, each listed once. */
  function AllInterfaceTypes(): (r: seq<InterfaceType>)
    ensures |r| == 4
    ensures forall t: InterfaceType :: t in r
    ensures forall i, j :: 0 <= i < j < |r| ==> r[i] != r[j]
  {
    var r := [Ethernet, Wireless, Loopback, Other];
    forall t: InterfaceType ensures t in r {
      ListedInterfaceType(t, r);
    }
    r
  }

  /** Every security type occurs in the list of all of them. */
  lemma ListedSecurityType(t: WifiSecurityType, r: seq<WifiSecurityType>)
    requires r == [Open, WEP, WPA, WPA2, WPA3]
    ensures t in r
  {
  }

  /** Every interface type occurs in the list of all of them. */
  lemma ListedInterfaceType(t: InterfaceType, r: seq<InterfaceType>)
    requires r == [Ethernet, Wireless, Loopback, Other]
    ensures t in r
  {
  }
}
