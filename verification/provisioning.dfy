/** The order of `main`: inspect interface 1, inspect interface 2, then
    build the document from both. Any parse error ends the run before a
    document exists, so nothing is written. */
module Provisioning {
  import opened Wrappers
  import opened PyStrings
  import opened InterfaceInfo
  import opened NetplanConfig

  const Interface1: string := "enp0s3"
  const Interface2: string := "enp0s8"

  /** `main` without its console output and its file publishing: the inputs
      are the texts the four commands print, in the order they run. */
  function Provision(addr1: string, route1: string, addr2: string, route2: string): (r: Result<Document, ParseError>)
    ensures r.Success? <==> GetInterfaceInfo(addr1, route1).Success? && GetInterfaceInfo(addr2, route2).Success?
    ensures GetInterfaceInfo(addr1, route1).Failure? ==> r == Failure(GetInterfaceInfo(addr1, route1).error)
    ensures GetInterfaceInfo(addr1, route1).Success? && GetInterfaceInfo(addr2, route2).Failure? ==>
      r == Failure(GetInterfaceInfo(addr2, route2).error)
    ensures r.Success? ==> r.value.network.ethernets.Keys == {Interface1, Interface2}
    ensures r.Success? ==> |r.value.network.ethernets| == 2
  {
    var config1 :- GetInterfaceInfo(addr1, route1);
    var config2 :- GetInterfaceInfo(addr2, route2);
    InterfaceNamesDiffer();
    Success(CreateNetplanConfig(Interface1, Interface2, config1, config2))
  }

  /** The two interface names differ, so the document has two entries. */
  lemma InterfaceNamesDiffer()
    ensures Interface1 != Interface2
    ensures |{Interface1, Interface2}| == 2
  {
    assert Interface1[5] != Interface2[5];
  }

  /** A successful run holds the document built from the two parsed records. */
  lemma {:induction false} ProvisionedDocument(addr1: string, route1: string, addr2: string, route2: string)
    requires Provision(addr1, route1, addr2, route2).Success?
    ensures GetInterfaceInfo(addr1, route1).Success? && GetInterfaceInfo(addr2, route2).Success?
    ensures Provision(addr1, route1, addr2, route2).value
         == CreateNetplanConfig(Interface1, Interface2,
                                GetInterfaceInfo(addr1, route1).value, GetInterfaceInfo(addr2, route2).value)
  {
  }

  /** An address listing without "inet " aborts the run with "No IP address
      found" before any document is built: for interface 1 always, for
      interface 2 once interface 1 has been read. */
  lemma {:induction false} MissingAddressAborts(addr1: string, route1: string, addr2: string, route2: string)
    ensures !Contains(addr1, InetMarker) ==> Provision(addr1, route1, addr2, route2) == Failure(NoIpAddressFound)
    ensures GetInterfaceInfo(addr1, route1).Success? && !Contains(addr2, InetMarker) ==>
      Provision(addr1, route1, addr2, route2) == Failure(NoIpAddressFound)
  {
    NoAddressIffNoMarker(addr1);
    NoAddressIffNoMarker(addr2);
  }

  /** The address written for each interface is the address word of the
      first "inet " line of its listing, whenever that word holds exactly
      one '/'. */
  lemma {:induction false} DocumentAddressesRoundTrip(addr1: string, route1: string, addr2: string, route2: string, k1: nat, k2: nat)
    requires Provision(addr1, route1, addr2, route2).Success?
    requires k1 < |SplitLines(addr1)| && Contains(SplitLines(addr1)[k1], InetMarker)
    requires forall j | 0 <= j < k1 :: !Contains(SplitLines(addr1)[j], InetMarker)
    requires |Words(SplitLines(addr1)[k1])| >= 2 && multiset(Words(SplitLines(addr1)[k1])[1])['/'] == 1
    requires k2 < |SplitLines(addr2)| && Contains(SplitLines(addr2)[k2], InetMarker)
    requires forall j | 0 <= j < k2 :: !Contains(SplitLines(addr2)[j], InetMarker)
    requires |Words(SplitLines(addr2)[k2])| >= 2 && multiset(Words(SplitLines(addr2)[k2])[1])['/'] == 1
    ensures var ethernets := Provision(addr1, route1, addr2, route2).value.network.ethernets;
      && ethernets[Interface1].addresses == [Words(SplitLines(addr1)[k1])[1]]
      && ethernets[Interface2].addresses == [Words(SplitLines(addr2)[k2])[1]]
  {
    InterfaceNamesDiffer();
    ProvisionedDocument(addr1, route1, addr2, route2);
    var config1, config2 := GetInterfaceInfo(addr1, route1).value, GetInterfaceInfo(addr2, route2).value;
    FirstInterfaceEntry(Interface1, Interface2, config1, config2, config2);
    SecondInterfaceIgnoresGateway(Interface1, Interface2, config1, config2, None);
    var line1, line2 := SplitLines(addr1)[k1], SplitLines(addr2)[k2];
    FirstMarkedLineIsRead(addr1, k1);
    AddressRoundTrip(line1);
    assert Cidr(config1) == Words(line1)[1];
    FirstMarkedLineIsRead(addr2, k2);
    AddressRoundTrip(line2);
    assert Cidr(config2) == Words(line2)[1];
  }

  /** Interface 1's single route goes through the third word of its route
      text, or through no gateway at all when that text is blank; interface
      2's route goes through 192.168.56.1 whatever its route text says. */
  lemma {:induction false} DocumentGateways(addr1: string, route1: string, addr2: string, route2: string)
    requires Provision(addr1, route1, addr2, route2).Success?
    ensures var ethernets := Provision(addr1, route1, addr2, route2).value.network.ethernets;
      && (AllSpace(route1) ==> ethernets[Interface1].routes[0].via == None)
      && (!AllSpace(route1) ==> |Words(route1)| >= 3 && ethernets[Interface1].routes[0].via == Some(Words(route1)[2]))
      && ethernets[Interface2].routes[0].via == Some(HostOnlyGateway)
  {
    InterfaceNamesDiffer();
    ProvisionedDocument(addr1, route1, addr2, route2);
    var config1, config2 := GetInterfaceInfo(addr1, route1).value, GetInterfaceInfo(addr2, route2).value;
    FirstInterfaceEntry(Interface1, Interface2, config1, config2, config2);
    SecondInterfaceIgnoresGateway(Interface1, Interface2, config1, config2, None);
    GatewayOutcome(route1);
    assert config1.gateway == ParseGateway(route1).value;
  }

  // ---------------------------------------------------------------------
  // The end-to-end run: enp0s3 lists "inet 10.0.2.15/24 brd 10.0.2.255
  // scope global enp0s3" and has the default route "default via 10.0.2.2
  // dev enp0s3"; enp0s8 lists "inet 192.168.56.10/24 brd 192.168.56.255
  // scope global enp0s8" and has no default route. Each listing line is
  // indented by four spaces and every non-empty output ends with a newline.
  // ---------------------------------------------------------------------

  const SampleAddressWords1: seq<string> := ["inet", "10.0.2.15/24", "brd", "10.0.2.255", "scope", "global", "enp0s3"]
  const SampleRouteWords1: seq<string> := ["default", "via", "10.0.2.2", "dev", "enp0s3"]
  const SampleAddressWords2: seq<string> :=
    ["inet", "192.168.56.10/24", "brd", "192.168.56.255", "scope", "global", "enp0s8"]

  const SampleAddress1: string := "    " + Join(SampleAddressWords1, " ") + "\n"
  const SampleRoute1: string := Join(SampleRouteWords1, " ") + "\n"
  const SampleAddress2: string := "    " + Join(SampleAddressWords2, " ") + "\n"
  const SampleRoute2: string := ""

  lemma {:induction false} SampleRouteWords()
    ensures forall k | 0 <= k < |SampleRouteWords1| :: SampleRouteWords1[k] != [] && NoSpace(SampleRouteWords1[k])
  {
    assert NoSpace("default") && NoSpace("via") && NoSpace("10.0.2.2") && NoSpace("dev") && NoSpace("enp0s3");
  }

  lemma {:induction false} SampleCidrs()
    ensures "10.0.2.15" + "/" + "24" == "10.0.2.15/24"
    ensures "192.168.56.10" + "/" + "24" == "192.168.56.10/24"
  {
  }

  lemma {:induction false} SampleAddressWords1Plain()
    ensures forall k | 0 <= k < |SampleAddressWords1| ::
      SampleAddressWords1[k] != [] && NoSpace(SampleAddressWords1[k]) && NoLineBreak(SampleAddressWords1[k])
  {
  }

  lemma {:induction false} SampleAddressWords2Plain()
    ensures forall k | 0 <= k < |SampleAddressWords2| ::
      SampleAddressWords2[k] != [] && NoSpace(SampleAddressWords2[k]) && NoLineBreak(SampleAddressWords2[k])
  {
  }

  lemma {:induction false} SampleAddressFields()
    ensures SampleAddressWords1[1] == "10.0.2.15" + "/" + "24" && '/' !in "10.0.2.15" && '/' !in "24"
    ensures SampleAddressWords2[1] == "192.168.56.10" + "/" + "24" && '/' !in "192.168.56.10"
  {
  }

  lemma {:induction false} SampleAddress1Parses()
    ensures ParseAddress(SampleAddress1) == Success(("10.0.2.15", "24"))
  {
    SampleAddressWords1Plain();
    SampleAddressFields();
    AddressListingOfWords("    ", SampleAddressWords1, "10.0.2.15", "24");
  }

  lemma {:induction false} SampleRoute1Parses()
    ensures ParseGateway(SampleRoute1) == Success(Some("10.0.2.2"))
  {
    SampleRouteWords();
    GatewayOfRouteLine(SampleRouteWords1);
  }

  lemma {:induction false} SampleAddress2Parses()
    ensures ParseAddress(SampleAddress2) == Success(("192.168.56.10", "24"))
  {
    SampleAddressWords2Plain();
    SampleAddressFields();
    AddressListingOfWords("    ", SampleAddressWords2, "192.168.56.10", "24");
  }

  lemma {:induction false} SampleInterface1()
    ensures GetInterfaceInfo(SampleAddress1, SampleRoute1) == Success(InterfaceConfig("10.0.2.15", "24", Some("10.0.2.2")))
  {
    SampleAddress1Parses();
    SampleRoute1Parses();
  }

  lemma {:induction false} SampleInterface2()
    ensures GetInterfaceInfo(SampleAddress2, SampleRoute2) == Success(InterfaceConfig("192.168.56.10", "24", None))
  {
    SampleAddress2Parses();
    GatewayOutcome(SampleRoute2);
  }

  /** The document the sample run builds. */
  lemma {:induction false} EndToEndScenario()
    ensures Provision(SampleAddress1, SampleRoute1, SampleAddress2, SampleRoute2)
         == Success(Document(Network(2, map[
              "enp0s3" := Ethernet(["10.0.2.15/24"], [Route("0.0.0.0/0", Some("10.0.2.2"))],
                                   Nameservers(["8.8.8.8", "8.8.4.4"])),
              "enp0s8" := Ethernet(["192.168.56.10/24"], [Route("192.168.56.0/24", Some("192.168.56.1"))],
                                   Nameservers(["1.1.1.1", "8.8.8.8"]))])))
  {
    SampleInterface1();
    SampleInterface2();
    var config1 := InterfaceConfig("10.0.2.15", "24", Some("10.0.2.2"));
    var config2 := InterfaceConfig("192.168.56.10", "24", None);
    assert Provision(SampleAddress1, SampleRoute1, SampleAddress2, SampleRoute2)
        == Success(CreateNetplanConfig(Interface1, Interface2, config1, config2));
    SampleCidrs();
    assert Cidr(config1) == "10.0.2.15/24";
    assert Cidr(config2) == "192.168.56.10/24";
  }
}
