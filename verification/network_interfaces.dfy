/** The mock network-interface repository (`MockNetworkInterfaceRepository`): a fixed
    list of three interfaces. Its literals leave out the address lists, which are
    therefore empty here. Host discovery is not part of this model. */
module NetworkInterfaces {
  import opened Results
  import opened NetworkEntities
  import KeyedStore

  function Interface(name: string, kind: InterfaceType, mac: string, ip: string): NetworkInterface
  {
    NetworkInterface(name, kind, mac, true, [], [], Some(ip))
  }

  /** `get_interfaces`: the three fixed interfaces, in this order; it never fails. */
  function GetInterfaces(): (r: Result<seq<NetworkInterface>>)
    ensures r.Success? && |r.value| == 3
    ensures r.value[0].name == "eth0" && r.value[0].interface_type == Ethernet
    ensures r.value[1].name == "wlan0" && r.value[1].interface_type == Wireless
    ensures r.value[2].name == "lo" && r.value[2].interface_type == Loopback
    ensures forall i :: 0 <= i < |r.value| ==> r.value[i].is_up && r.value[i].current_ip.Some?
  {
    Success([
      Interface("eth0", Ethernet, "00:1B:44:11:3A:B7", "192.168.1.100"),
      Interface("wlan0", Wireless, "00:1B:44:11:3A:B8", "192.168.1.101"),
      Interface("lo", Loopback, "00:00:00:00:00:00", "127.0.0.1")
    ])
  }

  /** `get_interface_by_name`: the first listed interface with that name, if any;
      a failure of the listing would be passed on. */
  function GetInterfaceByName(name: string): (r: Result<Option<NetworkInterface>>)
    ensures r.Success?
    ensures r.value.Some? <==> name in ["eth0", "wlan0", "lo"]
    ensures r.value.Some? ==> r.value.value.name == name && r.value.value in GetInterfaces().value
  {
    match GetInterfaces()
    case Failure(e) => Failure(e)
    case Success(all) =>
      var found := KeyedStore.FindFirst(all, (i: NetworkInterface) => i.name == name);
      assert found.None? ==> all[0].name != name && all[1].name != name && all[2].name != name;
      Success(found)
  }
}
