/** Two accepted configurations at the edges of what capture promises. */
module CaptureExamples {
  import opened Wrappers
  import opened Cidr
  import opened GatewayConfig
  import opened CapturePolicy

  /** 10.0.0.1 */
  function GatewayAddress(): Address { Address(4, 167772161) }

  /** 10.0.0.2 */
  function PeerAddress(): Address { Address(4, 167772162) }

  /** 192.0.2.1 */
  function BindAddress(): Address { Address(4, 3221225985) }

  function Gateway(): Interface { Interface(GatewayAddress(), 24) }

  function Peer(): PeerConfig { PeerConfig("phone", [Interface(PeerAddress(), 32)]) }

  function ExampleNetwork(): WireGuardConfig { WireGuardConfig([BindAddress()], [Gateway()], [Peer()]) }

  lemma Powers()
    ensures Pow2(8) == 256 && Pow2(28) == 268435456 && Pow2(32) == 4294967296
  {
    assert Pow2(4) == 16;
    Pow2Adds(4, 4);
    Pow2Adds(8, 8);
    Pow2Adds(16, 8);
    Pow2Adds(24, 4);
    Pow2Adds(28, 4);
  }

  /** IPv4 multicast is the block from 3758096384 to 4026531839. */
  lemma UnicastValue(value: nat)
    requires 0 < value < 3758096384
    ensures Unicast(Address(4, value)) && ValidAddress(Address(4, value))
  {
    Powers();
    MulticastIsValid(4);
    BlockIsRange(Multicast(4), Address(4, value));
    hide Pow2, Contains;
  }

  lemma GatewayBlock()
    ensures ValidNetwork(NetworkIn(Gateway()))
    ensures First(NetworkIn(Gateway())) == Address(4, 167772160)
    ensures Last(NetworkIn(Gateway())) == Address(4, 167772415)
  {
    Powers();
    UnicastValue(167772161);
    NetworkOfContains(GatewayAddress(), 24, GatewayAddress());
    hide Pow2, Contains, ValidNetwork, Block;
    BlockBounds(167772161, 256, 655360);
  }

  lemma GatewayHoldsPeer()
    ensures Contains(NetworkIn(Gateway()), PeerAddress())
    ensures !Contains(NetworkIn(Gateway()), Broadcast())
  {
    GatewayBlock();
    Powers();
    hide Pow2, Contains, ValidNetwork, NetworkOf, Block;
    BlockIsRange(NetworkIn(Gateway()), PeerAddress());
    BlockIsRange(NetworkIn(Gateway()), Broadcast());
  }

  lemma GatewayIsValid()
    ensures ValidGateway(Gateway()) && ParsedInterface(Gateway())
  {
    UnicastValue(167772161);
    GatewayBlock();
    hide Pow2, Unicast, NetworkOf, First, Last;
  }

  lemma PeerIsValid()
    ensures ValidPeer(Peer()) && ParsedPeer(Peer()) && HostedPeer([Gateway()], Peer())
    ensures Names([Peer()]) == [Peer().name] && PeerAddresses([Peer()]) == [PeerAddress()]
  {
    UnicastValue(167772162);
    GatewayHoldsPeer();
    GatewayIp();
    hide Pow2, Contains, Unicast, ValidAddress, NetworkIn, Gateway;
    assert [Gateway()][0] == Gateway() && Gateway() in [Gateway()];
    assert Hosted([Gateway()], PeerAddress());
    assert [Peer()][..0] == [] && Addresses(Peer()) == [PeerAddress()];
    PeerAddressesSplit([Peer()]);
  }

  lemma ExampleNetworkIsValid()
    ensures ParsedWireGuard(ExampleNetwork())
    ensures ValidPeer(Peer()) && ValidWireGuard(ExampleNetwork())
    ensures Contains(NetworkIn(Gateway()), PeerAddress())
    ensures !Contains(NetworkIn(Gateway()), Broadcast())
  {
    GatewayHoldsPeer();
    PeerIsValid();
    UnicastValue(3221225985);
    GatewayIsValid();
    var w := ExampleNetwork();
    assert w == WireGuardConfig([BindAddress()], [Gateway()], [Peer()]);
    hide Pow2, Contains, Unicast, ValidAddress, NetworkIn, Gateway, Peer, ValidGateway, ValidPeer, ParsedPeer, HostedPeer,
      ParsedInterface, PeerAddresses, Names, ExampleNetwork, PeerAddress;
    assert ValidPeers([Gateway()], [Peer()]);
  }

  lemma GatewayIp()
    ensures Gateway().ip == GatewayAddress() && GatewayAddress() != PeerAddress() && GatewayAddress().version == 4
  {
  }

  lemma GatewayHasFamily()
    ensures HasFamily(ExampleNetwork().gateways, 4) && !HasFamily(ExampleNetwork().gateways, 6)
  {
    assert ExampleNetwork().gateways[0] == Gateway();
  }

  function BroadcastConfig(): ProjectConfig {
    ProjectConfig(ExampleNetwork(), RoutingConfig(Full, []), DNSConfig(true, Some(Broadcast())))
  }

  lemma BroadcastIsRouted()
    ensures EffectiveRoutes(BroadcastConfig()) == [Network(4, 0, 0)]
    ensures InSome(EffectiveRoutes(BroadcastConfig()), Broadcast())
    ensures !InSome(GatewayNetworks(ExampleNetwork().gateways), Broadcast())
  {
    ExampleNetworkIsValid();
    GatewayHasFamily();
    BroadcastVersion();
    BroadcastIsNotMulticast();
    DefaultBlock(4, Broadcast());
    hide Contains, NetworkIn, Broadcast, HasFamily, Pow2, ExampleNetwork, ValidAddress;
    assert EffectiveRoutes(BroadcastConfig()) == [Network(4, 0, 0)];
    assert Contains(EffectiveRoutes(BroadcastConfig())[0], Broadcast());
    assert ExampleNetwork().gateways == [Gateway()] by { GatewayIsOnly(); }
    assert GatewayNetworks([Gateway()]) == [NetworkIn(Gateway())];
  }

  lemma GatewayIsOnly()
    ensures ExampleNetwork().gateways == [Gateway()] && ExampleNetwork().peers == [Peer()]
  {
  }

  lemma BroadcastConfigIsAccepted()
    ensures Accepted(BroadcastConfig())
  {
    ExampleNetworkIsValid();
    GatewayHasFamily();
    BroadcastIsNotMulticast();
    BroadcastVersion();
    BroadcastIsRouted();
    GatewayIsOnly();
    assert PeerHasFamily(Peer(), 4) by { assert Peer().addresses[0].ip.version == 4; }
    hide NetworkIn, Broadcast, EffectiveRoutes, HasFamily, PeerHasFamily, ParsedWireGuard, ValidPeer, InSome,
      ValidWireGuard, IsMulticast, ValidAddress, GatewayNetworks, ExampleNetwork, Peer, Gateway;
  }

  /** Full routing with DNS server 255.255.255.255 is accepted, though no query to that
    server is ever captured. */
  lemma {:induction false} BroadcastUpstreamIsAccepted()
    ensures exists c ::
      Accepted(c) && c.dns.enabled && c.dns.upstream == Some(Broadcast()) && !RouteWins(c, Broadcast())
  {
    BroadcastConfigIsAccepted();
    BroadcastIsNotMulticast();
    hide Accepted, RouteWins, Broadcast;
    NoRouteWinsMulticast(BroadcastConfig(), Broadcast());
  }

  function SelectedConfig(): ProjectConfig {
    ProjectConfig(
      ExampleNetwork(), RoutingConfig(Selected, [NetworkOf(PeerAddress(), 32)]), DNSConfig(false, None))
  }

  lemma PeerRoute()
    ensures var route := NetworkOf(PeerAddress(), 32);
      ValidNetwork(route) && Contains(route, PeerAddress()) && !EntirelyMulticast(route)
  {
    var a := PeerAddress();
    UnicastValue(167772162);
    HostBlock(a, a);
    FirstAndLastInside(NetworkOf(a, 32));
    HostBlock(a, First(NetworkOf(a, 32)));
    hide Contains, Pow2, NetworkOf, ValidNetwork;
  }

  lemma SelectedConfigIsAccepted()
    ensures Accepted(SelectedConfig())
  {
    ExampleNetworkIsValid();
    GatewayHasFamily();
    PeerRoute();
    hide Contains, HasFamily, ParsedWireGuard, ValidPeer, ValidWireGuard, ValidNetwork, EntirelyMulticast,
      ExampleNetwork;
    assert ExampleNetwork().peers == [Peer()] by { GatewayIsOnly(); }
    assert NetworkOf(PeerAddress(), 32).version == 4;
    assert EffectiveRoutes(SelectedConfig()) == [NetworkOf(PeerAddress(), 32)];
    assert CrossFieldsError(SelectedConfig()).None?;
  }

  /** A selected route longer than the gateway's prefix captures traffic between peers:
    the exclusion of the gateway network does not always win. */
  lemma {:induction false} GatewayExclusionCanLose()
    ensures exists c, g, a ::
      Accepted(c) && g in c.wireguard.gateways && Contains(NetworkIn(g), a) && RouteWins(c, a)
  {
    SelectedConfigIsAccepted();
    ExampleNetworkIsValid();
    PeerRoute();
    GatewayIsOnly();
    assert NetworkOf(PeerAddress(), 32).width == 32;
    hide Accepted, Contains, RouteWins, NetworkIn, ValidWireGuard, ParsedWireGuard, ValidPeer, ExampleNetwork,
      ValidNetwork, EntirelyMulticast, NetworkOf;
    assert NetworkOf(PeerAddress(), 32) in EffectiveRoutes(SelectedConfig());
    RouteBeatsGateway(SelectedConfig(), NetworkOf(PeerAddress(), 32), PeerAddress());
    assert Gateway() in SelectedConfig().wireguard.gateways;
  }

  lemma RouteBeatsGateway(c: ProjectConfig, route: Network, a: Address)
    requires Accepted(c) && c.wireguard.gateways == [Gateway()] && a == PeerAddress()
    requires route in EffectiveRoutes(c) && route.width == 32 && Contains(route, a)
    requires Contains(NetworkIn(Gateway()), a)
    ensures RouteWins(c, a)
  {
    UnicastValue(167772162);
    assert a != Broadcast() by { Powers(); }
    forall x | Excluded(c, x) && Contains(x, a) ensures x.width < 32 {
      OnlyGatewayExcludes(c, a, Gateway(), x);
    }
  }
}
