/** The document `create_netplan_config` builds before it serialises it: a
    Netplan version 2 network description of two ethernet interfaces. The
    first keeps its discovered default gateway and gets public resolvers;
    the second gets a fixed route to the host-only network 192.168.56.0/24. */
module NetplanConfig {
  import opened Wrappers
  import opened InterfaceInfo

  /** One entry of `routes`; `via` is `None` where the source writes a
      Python `None` (YAML null). */
  datatype Route = Route(to: string, via: Option<string>)

  datatype Nameservers = Nameservers(addresses: seq<string>)

  /** The settings of one interface under `ethernets`. */
  datatype Ethernet = Ethernet(addresses: seq<string>, routes: seq<Route>, nameservers: Nameservers)

  datatype Network = Network(version: int, ethernets: map<string, Ethernet>)

  /** The whole document: `{'network': {...}}`. */
  datatype Document = Document(network: Network)

  const DefaultDestination: string := "0.0.0.0/0"
  const HostOnlySubnet: string := "192.168.56.0/24"
  const HostOnlyGateway: string := "192.168.56.1"
  const PrimaryNameservers: seq<string> := ["8.8.8.8", "8.8.4.4"]
  const SecondaryNameservers: seq<string> := ["1.1.1.1", "8.8.8.8"]

  /** The f-string `f"{ip_address}/{subnet_mask}"`. */
  function Cidr(config: InterfaceConfig): string {
    config.ipAddress + "/" + config.subnetMask
  }

  /** The dict literal of `create_netplan_config`. A dict literal with the
      same key twice keeps the later value; so does the map update here. */
  function CreateNetplanConfig(interface1: string, interface2: string,
                               config1: InterfaceConfig, config2: InterfaceConfig): (doc: Document)
    ensures doc.network.version == 2
    ensures doc.network.ethernets.Keys == {interface1, interface2}
    ensures forall name | name in doc.network.ethernets ::
      && |doc.network.ethernets[name].addresses| == 1
      && |doc.network.ethernets[name].routes| == 1
      && |doc.network.ethernets[name].nameservers.addresses| == 2
  {
    var first := Ethernet(
      addresses := [Cidr(config1)],
      routes := [Route(to := DefaultDestination, via := config1.gateway)],
      nameservers := Nameservers(addresses := PrimaryNameservers));
    var second := Ethernet(
      addresses := [Cidr(config2)],
      routes := [Route(to := HostOnlySubnet, via := Some(HostOnlyGateway))],
      nameservers := Nameservers(addresses := SecondaryNameservers));
    Document(Network(version := 2, ethernets := map[][interface1 := first][interface2 := second]))
  }

  /** Interface 1 (when its name differs from interface 2's) gets its own
      address, one default route through its discovered gateway, passed on
      as it is even when absent, and the resolvers 8.8.8.8 and 8.8.4.4;
      nothing of interface 2's configuration reaches it. */
  lemma {:induction false} FirstInterfaceEntry(interface1: string, interface2: string,
                            config1: InterfaceConfig, config2: InterfaceConfig, other2: InterfaceConfig)
    requires interface1 != interface2
    ensures var e := CreateNetplanConfig(interface1, interface2, config1, config2).network.ethernets[interface1];
      && e.addresses == [Cidr(config1)]
      && e.routes == [Route(DefaultDestination, config1.gateway)]
      && e.nameservers.addresses == ["8.8.8.8", "8.8.4.4"]
      && e == CreateNetplanConfig(interface1, interface2, config1, other2).network.ethernets[interface1]
  {
  }

  /** Interface 2 gets its own address, the fixed route to 192.168.56.0/24
      through 192.168.56.1 and the resolvers 1.1.1.1 and 8.8.8.8, whatever
      gateway was discovered for it: changing that gateway changes nothing
      in the document. */
  lemma {:induction false} SecondInterfaceIgnoresGateway(interface1: string, interface2: string,
                                      config1: InterfaceConfig, config2: InterfaceConfig, gateway: Option<string>)
    ensures var e := CreateNetplanConfig(interface1, interface2, config1, config2).network.ethernets[interface2];
      && e.addresses == [Cidr(config2)]
      && e.routes == [Route("192.168.56.0/24", Some("192.168.56.1"))]
      && e.nameservers.addresses == ["1.1.1.1", "8.8.8.8"]
    ensures CreateNetplanConfig(interface1, interface2, config1, config2)
         == CreateNetplanConfig(interface1, interface2, config1, config2.(gateway := gateway))
  {
  }

  /** With the same name given twice, the document holds one interface,
      configured as interface 2: interface 1's configuration is dropped. */
  lemma {:induction false} SameNameKeepsSecond(name: string, config1: InterfaceConfig, other1: InterfaceConfig, config2: InterfaceConfig)
    ensures var doc := CreateNetplanConfig(name, name, config1, config2);
      && |doc.network.ethernets| == 1
      && doc.network.ethernets[name].routes == [Route(HostOnlySubnet, Some(HostOnlyGateway))]
      && doc == CreateNetplanConfig(name, name, other1, config2)
  {
  }
}
