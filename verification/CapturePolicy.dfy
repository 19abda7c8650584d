/** What a configuration captures: the sshuttle command line of
  src/shuttle_gate/runtime.py, compiled by the proxy method, behind its filter. */
module CapturePolicy {
  import opened Wrappers
  import opened Cidr
  import opened Nftables
  import opened TproxyTable
  import opened GatewayConfig

  /** A network on sshuttle's command line. */
  datatype Argument = Exclude(network: Network) | Route(network: Network)

  function MulticastExclusions(): seq<Network> {
    [Multicast(4), NetworkOf(Broadcast(), 32), Multicast(6)]
  }

  /** The multicast exclusions of the gateway's own families. */
  function FamilyExclusions(networks: seq<Network>, gateways: seq<Interface>): seq<Argument> {
    if networks == [] then []
    else
      FamilyExclusions(networks[..|networks| - 1], gateways)
      + (var last := networks[|networks| - 1];
         if HasFamily(gateways, last.version) then [Exclude(last)] else [])
  }

  function Arguments(c: ProjectConfig): seq<Argument> {
    var gateways := c.wireguard.gateways;
    var routes := EffectiveRoutes(c);
    FamilyExclusions(MulticastExclusions(), gateways)
    + seq(|gateways|, i requires 0 <= i < |gateways| => Exclude(NetworkIn(gateways[i])))
    + seq(|routes|, i requires 0 <= i < |routes| => Route(routes[i]))
  }

  /** The end of `sshuttle_arguments` (lines 169 to 174). */
  method SshuttleArguments(c: ProjectConfig) returns (arguments: seq<Argument>)
    ensures arguments == Arguments(c)
  {
    var exclusions := MulticastExclusions();
    var gateways := c.wireguard.gateways;
    hide MulticastExclusions, NetworkIn, EffectiveRoutes, HasFamily;
    arguments := [];
    for i := 0 to |exclusions|
      invariant arguments == FamilyExclusions(exclusions[..i], gateways)
    {
      assert exclusions[..i + 1][..i] == exclusions[..i];
      if HasFamily(gateways, exclusions[i].version) {
        arguments := arguments + [Exclude(exclusions[i])];
      }
    }
    assert exclusions[..|exclusions|] == exclusions;
    ghost var first := arguments;
    for i := 0 to |gateways|
      invariant arguments == first + seq(i, k requires 0 <= k < i => Exclude(NetworkIn(gateways[k])))
    {
      arguments := arguments + [Exclude(NetworkIn(gateways[i]))];
    }
    var routes := EffectiveRoutes(c);
    ghost var second := arguments;
    for i := 0 to |routes|
      invariant arguments == second + seq(i, k requires 0 <= k < i => Route(routes[k]))
    {
      arguments := arguments + [Route(routes[i])];
    }
  }

  /** The networks the command line excludes. */
  ghost predicate Excluded(c: ProjectConfig, n: Network) {
    || (n in MulticastExclusions() && HasFamily(c.wireguard.gateways, n.version))
    || (exists g :: g in c.wireguard.gateways && n == NetworkIn(g))
  }

  lemma {:induction false} FamilyExclusionsMembers(networks: seq<Network>, gateways: seq<Interface>, a: Argument)
    ensures a in FamilyExclusions(networks, gateways) <==>
      a.Exclude? && a.network in networks && HasFamily(gateways, a.network.version)
    decreases |networks|
  {
    hide HasFamily;
    if networks != [] {
      FamilyExclusionsMembers(networks[..|networks| - 1], gateways, a);
      assert networks == networks[..|networks| - 1] + [networks[|networks| - 1]];
    }
  }

  lemma {:induction false} ArgumentsMembers(c: ProjectConfig, a: Argument)
    ensures a in Arguments(c) <==>
      match a
      case Exclude(n) => Excluded(c, n)
      case Route(n) => n in EffectiveRoutes(c)
  {
    var gateways, routes := c.wireguard.gateways, EffectiveRoutes(c);
    FamilyExclusionsMembers(MulticastExclusions(), gateways, a);
    var middle := seq(|gateways|, i requires 0 <= i < |gateways| => Exclude(NetworkIn(gateways[i])));
    var last := seq(|routes|, i requires 0 <= i < |routes| => Route(routes[i]));
    hide MulticastExclusions, NetworkIn, EffectiveRoutes, HasFamily, FamilyExclusions;
    assert a in Arguments(c) <==>
      a in FamilyExclusions(MulticastExclusions(), gateways) || a in middle || a in last;
    if a.Exclude? {
      assert a in middle <==> exists g :: g in gateways && a.network == NetworkIn(g) by {
        if g :| g in gateways && a.network == NetworkIn(g) {
          var i :| 0 <= i < |gateways| && gateways[i] == g;
          assert middle[i] == a;
        }
      }
    } else if a.network in routes {
      var i :| 0 <= i < |routes| && routes[i] == a.network;
      assert last[i] == a;
    }
  }

  // ----------------------------------------------------- what sshuttle passes on

  function FamilyOf(version: int): int {
    if version == 4 then AF_INET else AF_INET6
  }

  /** A network without ports, as sshuttle hands it to the method. */
  function SubnetOf(a: Argument): Subnet {
    Subnet(FamilyOf(a.network.version), a.network.width, a.Exclude?, Some(First(a.network)), 0, 0)
  }

  /** The subnets of one family are those of the command line, in any order. */
  ghost predicate Passed(c: ProjectConfig, version: int, subnets: seq<Subnet>) {
    forall s :: s in subnets <==>
      exists a :: a in Arguments(c) && a.network.version == version && s == SubnetOf(a)
  }

  /** As before, with any further exclusions of sshuttle's own. */
  ghost predicate PassedWithExclusions(c: ProjectConfig, version: int, subnets: seq<Subnet>) {
    && (forall a :: a in Arguments(c) && a.Exclude? && a.network.version == version ==> SubnetOf(a) in subnets)
    && (forall s :: s in subnets && !s.exclude ==>
          exists a :: a in Arguments(c) && a.network.version == version && s == SubnetOf(a))
  }

  /** Some route to the address is longer than every exclusion of it. */
  ghost predicate RouteWins(c: ProjectConfig, a: Address) {
    exists r :: r in EffectiveRoutes(c) && Contains(r, a) && Outranks(c, r, a)
  }

  ghost predicate Outranks(c: ProjectConfig, r: Network, a: Address) {
    forall x :: Excluded(c, x) && Contains(x, a) ==> x.width < r.width
  }

  lemma RoutesAreNetworks(c: ProjectConfig)
    requires Parsed(c)
    ensures forall r :: r in EffectiveRoutes(c) ==> ValidNetwork(r)
  {
    DefaultBlock(4, Address(4, 0));
    DefaultBlock(6, Address(6, 0));
    hide ValidNetwork, HasFamily, ParsedWireGuard;
  }

  lemma ExclusionsAreNetworks(c: ProjectConfig, n: Network)
    requires Parsed(c) && Excluded(c, n)
    ensures ValidNetwork(n)
  {
    MulticastIsValid(4);
    MulticastIsValid(6);
    BroadcastIsNotMulticast();
    NetworkOfContains(Broadcast(), 32, Broadcast());
    hide ValidNetwork, ValidAddress, HasFamily, Multicast, NetworkOf, Broadcast;
    if g :| g in c.wireguard.gateways && n == NetworkIn(g) {
      assert ParsedInterface(g);
      NetworkOfContains(g.ip, g.width, g.ip);
    }
  }

  lemma ArgumentsAreNetworks(c: ProjectConfig, a: Argument)
    requires Parsed(c) && a in Arguments(c)
    ensures ValidNetwork(a.network)
  {
    ArgumentsMembers(c, a);
    hide *;
    if a.Exclude? {
      ExclusionsAreNetworks(c, a.network);
    } else {
      RoutesAreNetworks(c);
    }
  }

  /** The subnet of a network covers the network's addresses, on every port. */
  lemma SubnetCovers(a: Argument, p: Packet)
    requires ValidNetwork(a.network)
    ensures Covers(SubnetOf(a), p) <==> Contains(a.network, p.destination)
    ensures WeightOf(SubnetOf(a)) == Weight(-65535, a.network.width, a.Exclude?)
  {
    assert NetworkOfSubnet(SubnetOf(a)) == a.network by {
      hide Block, Size, Bits;
    }
  }

  /** With the command line's subnets, possibly more exclusions, capture needs a route
    that wins over every exclusion. */
  lemma CaptureNeedsRoute(c: ProjectConfig, subnets: seq<Subnet>, p: Packet)
    requires Parsed(c) && PassedWithExclusions(c, p.destination.version, subnets)
    requires Captured(subnets, p)
    ensures RouteWins(c, p.destination)
  {
    var dst := p.destination;
    var s :| Best(subnets, p, s) && !s.exclude;
    var a :| a in Arguments(c) && a.network.version == dst.version && s == SubnetOf(a);
    hide Arguments, Excluded, Contains, Parsed, EffectiveRoutes, ValidNetwork, Covers, WeightOf;
    ArgumentsAreNetworks(c, a);
    ArgumentsMembers(c, a);
    SubnetCovers(a, p);
    assert !a.Exclude?;
    forall x | Excluded(c, x) && Contains(x, dst) ensures x.width < a.network.width {
      var exclusion := Exclude(x);
      ArgumentsMembers(c, exclusion);
      ArgumentsAreNetworks(c, exclusion);
      SubnetCovers(exclusion, p);
      assert x.version == dst.version by { ContainsVersion(x, dst); }
      assert SubnetOf(exclusion) in subnets;
      assert !Lighter(WeightOf(s), WeightOf(SubnetOf(exclusion)));
    }
  }

  lemma ContainsVersion(n: Network, a: Address)
    requires Contains(n, a)
    ensures n.version == a.version
  {
  }

  /** With exactly the command line's subnets, capture is winning a route. */
  lemma {:induction false} CaptureIsRouteWins(c: ProjectConfig, subnets: seq<Subnet>, p: Packet)
    requires Parsed(c) && Passed(c, p.destination.version, subnets)
    ensures Captured(subnets, p) <==> RouteWins(c, p.destination)
  {
    var dst := p.destination;
    assert PassedWithExclusions(c, dst.version, subnets);
    hide Arguments, Excluded, Contains, Parsed, EffectiveRoutes, ValidNetwork, Covers, WeightOf, PassedWithExclusions;
    if Captured(subnets, p) {
      CaptureNeedsRoute(c, subnets, p);
    }
    if RouteWins(c, dst) {
      WinningRouteIsCaptured(c, subnets, p);
    }
  }

  lemma WinningRouteIsCaptured(c: ProjectConfig, subnets: seq<Subnet>, p: Packet)
    requires Parsed(c) && Passed(c, p.destination.version, subnets)
    requires RouteWins(c, p.destination)
    ensures Captured(subnets, p)
  {
    var dst := p.destination;
    hide Arguments, Excluded, Contains, Parsed, EffectiveRoutes, ValidNetwork, Covers, WeightOf;
    var r :| r in EffectiveRoutes(c) && Contains(r, dst) && Outranks(c, r, dst);
    ContainsVersion(r, dst);
    var route := Route(r);
    ArgumentsMembers(c, route);
    ArgumentsAreNetworks(c, route);
    SubnetCovers(route, p);
    assert SubnetOf(route) in subnets;
    BestExists(subnets, p, SubnetOf(route));
    var s :| Best(subnets, p, s);
    var a :| a in Arguments(c) && a.network.version == dst.version && s == SubnetOf(a);
    ArgumentsMembers(c, a);
    ArgumentsAreNetworks(c, a);
    SubnetCovers(a, p);
    assert a.Exclude? ==> Lighter(WeightOf(s), WeightOf(SubnetOf(route)));
  }

  // ----------------------------------------------------------- multicast and DNS

  lemma RouteHasFamily(c: ProjectConfig, r: Network)
    requires CrossFieldsError(c).None? && r in EffectiveRoutes(c)
    ensures HasFamily(c.wireguard.gateways, r.version)
  {
    var routes := EffectiveRoutes(c);
    var i :| 0 <= i < |routes| && routes[i] == r;
    hide HasFamily, EffectiveRoutes, InSome, GatewayNetworks;
  }

  /** The multicast block of a routed family is excluded. */
  lemma MulticastExcluded(c: ProjectConfig, version: int)
    requires HasFamily(c.wireguard.gateways, version) && (version == 4 || version == 6)
    ensures Excluded(c, Multicast(version)) && Multicast(version).version == version
  {
    assert MulticastExclusions()[0] == Multicast(4) && MulticastExclusions()[2] == Multicast(6);
    hide HasFamily, Pow2, NetworkOf, Broadcast;
  }

  lemma BroadcastExcluded(c: ProjectConfig)
    requires HasFamily(c.wireguard.gateways, 4)
    ensures Excluded(c, NetworkOf(Broadcast(), 32))
    ensures Contains(NetworkOf(Broadcast(), 32), Broadcast())
    ensures NetworkOf(Broadcast(), 32).width == 32
  {
    assert MulticastExclusions()[1] == NetworkOf(Broadcast(), 32);
    assert NetworkOf(Broadcast(), 32).version == 4;
    BroadcastIsNotMulticast();
    HostBlock(Broadcast(), Broadcast());
    hide HasFamily, Pow2, NetworkOf, Broadcast, Contains;
  }

  lemma SelectedIsNotMulticast(routing: RoutingConfig, r: Network)
    requires RoutesError(routing).None?
    ensures routing.mode == Selected && r in routing.networks ==> !EntirelyMulticast(r)
  {
    hide EntirelyMulticast, Distinct;
    if r in routing.networks {
      var i :| 0 <= i < |routing.networks| && routing.networks[i] == r;
    }
  }

  /** A route at least as long as the multicast block does not reach into it. */
  lemma LongRouteIsNotMulticast(c: ProjectConfig, r: Network, a: Address)
    requires RoutesError(c.routing).None? && r in EffectiveRoutes(c) && ValidNetwork(r)
    requires Contains(r, a) && InMulticast(a)
    ensures r.width < Multicast(r.version).width
  {
    hide Contains, ValidNetwork, Pow2, InMulticast, First, Last, Distinct, HasFamily;
    assert c.routing.mode == Full ==> r.width == 0;
    assert c.routing.mode == Selected ==> !EntirelyMulticast(r) by { SelectedIsNotMulticast(c.routing, r); }
    hide EffectiveRoutes, RoutesError;
    if c.routing.mode == Selected && r.width >= Multicast(r.version).width {
      BlockOfMulticast(r, a);
    }
  }

  /** No route of an accepted configuration beats the exclusion of a multicast address
    or of the IPv4 broadcast address. */
  lemma NoRouteWinsMulticast(c: ProjectConfig, a: Address)
    requires Accepted(c) && ValidAddress(a)
    requires InMulticast(a) || a == Broadcast()
    ensures !RouteWins(c, a)
  {
    RoutesAreNetworks(c);
    hide ValidWireGuard, ValidPeer, UpstreamError, Parsed, Excluded, EffectiveRoutes, RoutesError, CrossFieldsError;
    hide Contains, Broadcast, Multicast, HasFamily, Pow2;
    forall r | r in EffectiveRoutes(c) && Contains(r, a) ensures !Outranks(c, r, a) {
      ContainsVersion(r, a);
      RouteHasFamily(c, r);
      if InMulticast(a) {
        MulticastExcluded(c, a.version);
        LongRouteIsNotMulticast(c, r, a);
      } else {
        BroadcastVersion();
        BroadcastExcluded(c);
        assert r.width <= 32;
      }
    }
  }

  lemma BroadcastVersion()
    ensures Broadcast().version == 4
  {
  }

  /** For every accepted configuration, under default routes and selected ones alike,
    and whatever sshuttle excludes besides: traffic to a multicast address or to
    255.255.255.255 passes the table unproxied. */
  lemma {:induction false} MulticastIsNeverCaptured(
    c: ProjectConfig, port: int, subnets: seq<Subnet>, udp: bool, mark: string, table: Table, p: Packet)
    requires Accepted(c) && ValidAddress(p.destination)
    requires var Address(version, value) := p.destination;
      || (version == 4 && 0xe000_0000 <= value <= 0xefff_ffff)
      || (version == 4 && value == 0xffff_ffff)
      || (version == 6 && 0xff00_0000_0000_0000_0000_0000_0000_0000 <= value
                          <= 0xffff_ffff_ffff_ffff_ffff_ffff_ffff_ffff)
    requires PassedWithExclusions(c, p.destination.version, subnets)
    requires Rendered(port, FamilyOf(p.destination.version), subnets, udp, mark) == Ok(table)
    ensures Evaluate(table.chain, p).proxy == None
  {
    hide Accepted, ValidAddress, InMulticast, Broadcast, PassedWithExclusions, Rendered, Captured, RouteWins,
      Evaluate, Eligible, MarkValue;
    FixedBlocks(p.destination);
    assert Parsed(c) by { AcceptedIsParsed(c); }
    NoRouteWinsMulticast(c, p.destination);
    assert !Captured(subnets, p) by {
      if Captured(subnets, p) {
        CaptureNeedsRoute(c, subnets, p);
      }
    }
    FamilyIsVersion(p.destination);
    TableMeaning(port, FamilyOf(p.destination.version), subnets, udp, mark, table, p);
  }

  lemma FamilyIsVersion(a: Address)
    requires ValidAddress(a)
    ensures Version(FamilyOf(a.version)) == a.version
  {
  }

  /** The fixed exclusions hold multicast and broadcast addresses only. */
  lemma FixedExclusionsMiss(a: Address, x: Network)
    requires ValidAddress(a) && !InMulticast(a) && a != Broadcast()
    requires x in MulticastExclusions()
    ensures !Contains(x, a)
  {
    BroadcastIsNotMulticast();
    HostBlock(Broadcast(), a);
    MulticastVersions();
    hide Contains, NetworkOf, Pow2, Broadcast, Multicast;
    assert x in [Multicast(4), NetworkOf(Broadcast(), 32), Multicast(6)];
    if Contains(x, a) {
      ContainsVersion(x, a);
    }
  }

  lemma AcceptedIsParsed(c: ProjectConfig)
    requires Accepted(c)
    ensures Parsed(c)
  {
  }

  /** An accepted DNS upstream is routed, and the only exclusion that can reach it is
    the one of the broadcast address. */
  lemma UpstreamWins(c: ProjectConfig, upstream: Address)
    requires Accepted(c) && c.dns.enabled && c.dns.upstream == Some(upstream)
    ensures RouteWins(c, upstream) <==> upstream != Broadcast()
  {
    AcceptedIsParsed(c);
    UpstreamIsRouted(c, upstream);
    if upstream == Broadcast() {
      BroadcastIsNotMulticast();
      NoRouteWinsMulticast(c, upstream);
    } else {
      forall x | Excluded(c, x) ensures !Contains(x, upstream) {
        UpstreamIsNotExcluded(c, upstream, x);
      }
      hide Accepted, Excluded, Contains, EffectiveRoutes, Broadcast;
      var r :| r in EffectiveRoutes(c) && Contains(r, upstream);
      assert Outranks(c, r, upstream);
    }
  }

  lemma UpstreamIsRouted(c: ProjectConfig, upstream: Address)
    requires Accepted(c) && c.dns.enabled && c.dns.upstream == Some(upstream)
    ensures ValidAddress(upstream) && !InMulticast(upstream)
    ensures exists r :: r in EffectiveRoutes(c) && Contains(r, upstream)
    ensures !InSome(GatewayNetworks(c.wireguard.gateways), upstream)
  {
    assert !InMulticast(upstream) by {
      assert Unicast(upstream);
      hide InMulticast, Unmapped;
      if InMulticast(upstream) {
        MulticastIsNotMapped(upstream);
      }
    }
    hide ValidWireGuard, ValidPeer, RoutesError, EffectiveRoutes, HasFamily, GatewayNetworks, Contains, Unicast;
    assert InSome(EffectiveRoutes(c), upstream);
  }

  lemma UpstreamIsNotExcluded(c: ProjectConfig, upstream: Address, x: Network)
    requires ValidAddress(upstream) && !InMulticast(upstream) && upstream != Broadcast()
    requires !InSome(GatewayNetworks(c.wireguard.gateways), upstream)
    requires Excluded(c, x)
    ensures !Contains(x, upstream)
  {
    var gateways := c.wireguard.gateways;
    if g :| g in gateways && x == NetworkIn(g) {
      var i :| 0 <= i < |gateways| && gateways[i] == g;
      assert GatewayNetworks(gateways)[i] == x;
    } else {
      FixedExclusionsMiss(upstream, x);
    }
  }

  lemma MulticastVersions()
    ensures Multicast(4).version == 4 && Multicast(6).version == 6
    ensures Bits(Broadcast().version) == 32
  {
  }

  /** Queries to the configured DNS server, over TCP and UDP, are captured in exactly
    one case: the server is not 255.255.255.255. */
  lemma {:induction false} UpstreamIsCaptured(
    c: ProjectConfig, port: int, subnets: seq<Subnet>, mark: string, table: Table, p: Packet)
    requires Accepted(c) && c.dns.enabled && c.dns.upstream == Some(p.destination)
    requires Passed(c, p.destination.version, subnets)
    requires Rendered(port, FamilyOf(p.destination.version), subnets, true, mark) == Ok(table)
    requires Eligible(p, FamilyOf(p.destination.version), true)
    ensures Evaluate(table.chain, p) ==
      if p.destination != Broadcast() then Effect(Some(port), MarkValue(mark), false)
      else Effect(None, p.mark, false)
  {
    hide Accepted, Broadcast, Passed, Rendered, Captured, RouteWins, Evaluate, Eligible, MarkValue;
    AcceptedIsParsed(c);
    UpstreamWins(c, p.destination);
    CaptureIsRouteWins(c, subnets, p);
    ChainIsBestSubnet(port, FamilyOf(p.destination.version), subnets, true, mark, table, p);
  }

  /** Traffic into a gateway network, other than multicast and broadcast, is captured
    exactly when some route to it is strictly longer than the gateway's prefix. */
  lemma {:induction false} GatewayTraffic(c: ProjectConfig, subnets: seq<Subnet>, p: Packet, g: Interface)
    requires Accepted(c) && g in c.wireguard.gateways
    requires Contains(NetworkIn(g), p.destination) && ValidAddress(p.destination)
    requires !InMulticast(p.destination) && p.destination != Broadcast()
    requires Passed(c, p.destination.version, subnets)
    ensures Captured(subnets, p) <==>
      exists r :: r in EffectiveRoutes(c) && Contains(r, p.destination) && g.width < r.width
  {
    AcceptedIsParsed(c);
    var dst := p.destination;
    forall x | Excluded(c, x) && Contains(x, dst) ensures x == NetworkIn(g) {
      OnlyGatewayExcludes(c, dst, g, x);
    }
    assert Excluded(c, NetworkIn(g)) && NetworkIn(g).width == g.width;
    hide Accepted, Excluded, Contains, EffectiveRoutes, Broadcast, Captured, InMulticast, NetworkIn, Parsed, Passed;
    CaptureIsRouteWins(c, subnets, p);
  }

  lemma OnlyGatewayExcludes(c: ProjectConfig, a: Address, g: Interface, x: Network)
    requires Accepted(c) && g in c.wireguard.gateways && Contains(NetworkIn(g), a)
    requires ValidAddress(a) && !InMulticast(a) && a != Broadcast()
    requires Excluded(c, x) && Contains(x, a)
    ensures x == NetworkIn(g)
  {
    var gateways := c.wireguard.gateways;
    assert ValidGateways(gateways);
    hide Accepted, Contains, ValidGateway, HasFamily, MulticastExclusions, ValidAddress, InMulticast, Broadcast;
    ContainsVersion(x, a);
    ContainsVersion(NetworkIn(g), a);
    if h :| h in gateways && x == NetworkIn(h) {
      var i :| 0 <= i < |gateways| && gateways[i] == g;
      var k :| 0 <= k < |gateways| && gateways[k] == h;
      assert i == k;
    }
    if x in MulticastExclusions() {
      FixedExclusionsMiss(a, x);
    }
  }

  /** Full routing captures exactly what is left: every address of a gateway family that
    is in no gateway network, not multicast and not 255.255.255.255. */
  lemma {:induction false} FullRoutingCapturesTheRest(c: ProjectConfig, subnets: seq<Subnet>, p: Packet)
    requires Accepted(c) && c.routing.mode == Full && ValidAddress(p.destination)
    requires Passed(c, p.destination.version, subnets)
    ensures Captured(subnets, p) <==>
      && HasFamily(c.wireguard.gateways, p.destination.version)
      && !InMulticast(p.destination) && p.destination != Broadcast()
      && !InSome(GatewayNetworks(c.wireguard.gateways), p.destination)
  {
    var dst := p.destination;
    AcceptedIsParsed(c);
    assert CrossFieldsError(c).None?;
    hide Accepted, Passed, InMulticast, Broadcast, HasFamily, ValidAddress, Captured, Contains, Parsed, CrossFieldsError;
    CaptureIsRouteWins(c, subnets, p);
    hide GatewayNetworks, NetworkIn, MulticastExclusions;
    if RouteWins(c, dst) {
      FullRoutesExcludeNothing(c, dst);
    }
    if HasFamily(c.wireguard.gateways, dst.version) && !InMulticast(dst) && dst != Broadcast()
       && !InSome(GatewayNetworks(c.wireguard.gateways), dst)
    {
      forall x | Excluded(c, x) ensures !Contains(x, dst) {
        NothingElseExcludes(c, dst, x);
      }
      assert dst.version == 4 || dst.version == 6 by { VersionOf(dst); }
      DefaultBlock(dst.version, dst);
      assert Network(dst.version, 0, 0) in EffectiveRoutes(c);
      assert Outranks(c, Network(dst.version, 0, 0), dst);
    }
  }

  lemma VersionOf(a: Address)
    requires ValidAddress(a)
    ensures a.version == 4 || a.version == 6
  {
  }

  lemma NothingElseExcludes(c: ProjectConfig, a: Address, x: Network)
    requires ValidAddress(a) && !InMulticast(a) && a != Broadcast()
    requires !InSome(GatewayNetworks(c.wireguard.gateways), a) && Excluded(c, x)
    ensures !Contains(x, a)
  {
    hide Contains, MulticastExclusions, InMulticast, Broadcast, ValidAddress, HasFamily;
    if g :| g in c.wireguard.gateways && x == NetworkIn(g) {
      InGatewayNetworks(c.wireguard.gateways, g, a);
    } else {
      FixedExclusionsMiss(a, x);
    }
  }

  lemma InGatewayNetworks(gateways: seq<Interface>, g: Interface, a: Address)
    requires g in gateways
    ensures Contains(NetworkIn(g), a) ==> InSome(GatewayNetworks(gateways), a)
  {
    var i :| 0 <= i < |gateways| && gateways[i] == g;
    assert GatewayNetworks(gateways)[i] == NetworkIn(g);
  }

  /** A default route outranks no exclusion. */
  lemma FullRoutesExcludeNothing(c: ProjectConfig, a: Address)
    requires Accepted(c) && c.routing.mode == Full && ValidAddress(a) && RouteWins(c, a)
    ensures HasFamily(c.wireguard.gateways, a.version)
    ensures !InMulticast(a) && a != Broadcast()
    ensures !InSome(GatewayNetworks(c.wireguard.gateways), a)
  {
    var r :| r in EffectiveRoutes(c) && Contains(r, a) && Outranks(c, r, a);
    assert r.width == 0;
    assert CrossFieldsError(c).None?;
    hide Accepted, InMulticast, Broadcast, HasFamily, ValidAddress, Contains, EffectiveRoutes, MulticastExclusions,
      CrossFieldsError;
    RouteHasFamily(c, r);
    ContainsVersion(r, a);
    if InMulticast(a) || a == Broadcast() {
      NoRouteWinsMulticast(c, a);
    }
    var gateways := c.wireguard.gateways;
    forall i | 0 <= i < |gateways| ensures !Contains(GatewayNetworks(gateways)[i], a) {
      assert gateways[i] in gateways;
      assert Excluded(c, NetworkIn(gateways[i]));
    }
  }
}
