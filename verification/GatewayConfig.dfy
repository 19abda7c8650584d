/** The configuration rules that routing rests on (src/shuttle_gate/config.py). */
module GatewayConfig {
  import opened Wrappers
  import opened Cidr

  /** An address with the prefix length of its network. */
  datatype Interface = Interface(ip: Address, width: nat)

  function NetworkIn(i: Interface): Network {
    NetworkOf(i.ip, i.width)
  }

  datatype PeerConfig = PeerConfig(name: string, addresses: seq<Interface>)

  datatype WireGuardConfig = WireGuardConfig(
    binds: seq<Address>, gateways: seq<Interface>, peers: seq<PeerConfig>)

  datatype RoutingMode = Selected | Full

  datatype RoutingConfig = RoutingConfig(mode: RoutingMode, networks: seq<Network>)

  datatype DNSConfig = DNSConfig(enabled: bool, upstream: Option<Address>)

  datatype ProjectConfig = ProjectConfig(wireguard: WireGuardConfig, routing: RoutingConfig, dns: DNSConfig)

  datatype ConfigError =
    | PeerWithoutAddress | PeerFamilyTwice | PeerPrefix
    | NoBind | BindTwice | BindNotUnicast | NoGateway | NoPeer
    | GatewayFamilyTwice | GatewayIsNetwork | GatewayNotUnicast | GatewayIsBroadcast
    | PeerNameTwice | PeerNotUnicast | PeerWithoutGateway | PeerOutsideGateway
    | PeerIsGateway | PeerAddressTwice
    | NoRoute | RouteWithFull | RouteTwice | RouteMulticast
    | DnsWithoutUpstream | UpstreamWithoutDns | UpstreamNotUnicast
    | RouteWithoutGateway | UpstreamInGateway | UpstreamNotRouted | UpstreamWithoutPeer

  // ------------------------------------------- what parsing the fields ensures

  predicate ParsedInterface(i: Interface) {
    ValidAddress(i.ip) && i.width <= Bits(i.ip.version)
  }

  ghost predicate ParsedWireGuard(w: WireGuardConfig) {
    && (forall i :: 0 <= i < |w.binds| ==> ValidAddress(w.binds[i]))
    && (forall i :: 0 <= i < |w.gateways| ==> ParsedInterface(w.gateways[i]))
    && (forall i :: 0 <= i < |w.peers| ==> ParsedPeer(w.peers[i]))
  }

  ghost predicate ParsedPeer(p: PeerConfig) {
    forall k :: 0 <= k < |p.addresses| ==> ParsedInterface(p.addresses[k])
  }

  ghost predicate Parsed(c: ProjectConfig) {
    && ParsedWireGuard(c.wireguard)
    && (forall i :: 0 <= i < |c.routing.networks| ==> ValidNetwork(c.routing.networks[i]))
    && (c.dns.upstream.Some? ==> ValidAddress(c.dns.upstream.value))
  }

  // ----------------------------------------------------- what the checks demand

  predicate Unicast(a: Address) {
    !IsUnspecified(a) && !IsMulticast(a)
  }

  predicate Distinct<T(==)>(items: seq<T>) {
    forall i, k :: 0 <= i < k < |items| ==> items[i] != items[k]
  }

  /** `validate_addresses` (line 62): one host address per family. */
  ghost predicate ValidPeer(p: PeerConfig) {
    && p.addresses != []
    && (forall i, k :: 0 <= i < k < |p.addresses| ==> p.addresses[i].ip.version != p.addresses[k].ip.version)
    && (forall i :: 0 <= i < |p.addresses| ==> p.addresses[i].width == Bits(p.addresses[i].ip.version))
  }

  /** By value, IPv6 addresses that stand for IPv4 ones included. */
  lemma {:induction false} UnicastByValue(a: Address)
    requires ValidAddress(a)
    ensures a.version == 4 ==> (Unicast(a) <==> a.value != 0 && !(0xe000_0000 <= a.value <= 0xefff_ffff))
    ensures a.version == 6 ==>
      (Unicast(a) <==>
        if 0xffff_0000_0000 <= a.value <= 0xffff_ffff_ffff
        then a.value != 0xffff_0000_0000 && !(0xffff_e000_0000 <= a.value <= 0xffff_efff_ffff)
        else 0 < a.value < 0xff00_0000_0000_0000_0000_0000_0000_0000)
  {
    LargePowers();
    BlockBounds(a.value, Pow2(32), 65535);
    hide Pow2, Block, InMulticast;
    FixedBlocks(a);
    if a.version == 6 && Block(a.value, Pow2(32)) == 65535 {
      UnmappedIsValid(a);
      FixedBlocks(Unmapped(a));
    }
  }

  lemma UnmappedIsValid(a: Address)
    requires ValidAddress(a) && a.version == 6 && Block(a.value, Pow2(32)) == 65535
    ensures a.value >= 0xffff_0000_0000
    ensures ValidAddress(Unmapped(a)) && Unmapped(a) == Address(4, a.value - 0xffff_0000_0000)
  {
    LargePowers();
    BlockBounds(a.value, Pow2(32), 65535);
    hide Pow2, Block;
  }

  predicate ValidGateway(g: Interface) {
    && g.ip != First(NetworkIn(g))
    && Unicast(g.ip)
    && (g.ip.version == 4 ==> g.ip != Last(NetworkIn(g)))
  }

  ghost predicate ValidGateways(gateways: seq<Interface>) {
    && (forall i, k :: 0 <= i < k < |gateways| ==> gateways[i].ip.version != gateways[k].ip.version)
    && (forall i :: 0 <= i < |gateways| ==> ValidGateway(gateways[i]))
  }

  /** A peer address is a unicast host of its family's gateway network, and no gateway's own. */
  ghost predicate Hosted(gateways: seq<Interface>, a: Address) {
    && Unicast(a)
    && (exists g :: g in gateways && g.ip.version == a.version && Contains(NetworkIn(g), a))
    && (forall g :: g in gateways ==> g.ip != a)
  }

  ghost predicate HostedPeer(gateways: seq<Interface>, p: PeerConfig) {
    forall k :: 0 <= k < |p.addresses| ==> Hosted(gateways, p.addresses[k].ip)
  }

  /** All addresses of all peers, in order. */
  function PeerAddresses(peers: seq<PeerConfig>): seq<Address> {
    if peers == [] then [] else PeerAddresses(peers[..|peers| - 1]) + Addresses(peers[|peers| - 1])
  }

  function Addresses(p: PeerConfig): seq<Address> {
    seq(|p.addresses|, k requires 0 <= k < |p.addresses| => p.addresses[k].ip)
  }

  function Names(peers: seq<PeerConfig>): seq<string> {
    seq(|peers|, i requires 0 <= i < |peers| => peers[i].name)
  }

  /** `validate_network` (line 131) */
  ghost predicate ValidWireGuard(w: WireGuardConfig) {
    && w.binds != [] && Distinct(w.binds) && (forall i :: 0 <= i < |w.binds| ==> Unicast(w.binds[i]))
    && w.gateways != [] && ValidGateways(w.gateways)
    && w.peers != [] && ValidPeers(w.gateways, w.peers)
  }

  ghost predicate ValidPeers(gateways: seq<Interface>, peers: seq<PeerConfig>) {
    && Distinct(Names(peers))
    && (forall i :: 0 <= i < |peers| ==> HostedPeer(gateways, peers[i]))
    && Distinct(PeerAddresses(peers))
  }

  // ----------------------------------------------------------------- the loops

  method ValidateAddresses(p: PeerConfig) returns (error: Option<ConfigError>)
    ensures error.None? <==> ValidPeer(p)
  {
    if p.addresses == [] {
      return Some(PeerWithoutAddress);
    }
    var families: set<int> := {};
    for i := 0 to |p.addresses|
      invariant forall v :: v in families <==> exists k :: 0 <= k < i && p.addresses[k].ip.version == v
      invariant forall j, k :: 0 <= j < k < i ==> p.addresses[j].ip.version != p.addresses[k].ip.version
      invariant forall k :: 0 <= k < i ==> p.addresses[k].width == Bits(p.addresses[k].ip.version)
    {
      var a := p.addresses[i];
      if a.ip.version in families {
        return Some(PeerFamilyTwice);
      }
      families := families + {a.ip.version};
      if a.width != Bits(a.ip.version) {
        return Some(PeerPrefix);
      }
    }
    return None;
  }

  method ValidateGateway(g: Interface) returns (error: Option<ConfigError>)
    ensures error.None? <==> ValidGateway(g)
  {
    hide Unicast, NetworkIn, First, Last;
    if g.ip == First(NetworkIn(g)) {
      return Some(GatewayIsNetwork);
    }
    if !Unicast(g.ip) {
      return Some(GatewayNotUnicast);
    }
    if g.ip.version == 4 && g.ip == Last(NetworkIn(g)) {
      return Some(GatewayIsBroadcast);
    }
    return None;
  }

  method ValidateGateways(gateways: seq<Interface>) returns (error: Option<ConfigError>, known: map<int, Interface>)
    ensures error.None? <==> ValidGateways(gateways)
    ensures error.None? ==> KnowsGateways(known, gateways)
  {
    known := map[];
    hide ValidGateway, KnowsGateways;
    NothingIsKnown();
    for i := 0 to |gateways|
      invariant KnowsGateways(known, gateways[..i])
      invariant forall j, k :: 0 <= j < k < i ==> gateways[j].ip.version != gateways[k].ip.version
      invariant forall k :: 0 <= k < i ==> ValidGateway(gateways[k])
    {
      var g := gateways[i];
      OneMoreGateway(known, gateways, i);
      if g.ip.version in known {
        error := Some(GatewayFamilyTwice);
        return;
      }
      error := ValidateGateway(g);
      if error.Some? {
        return;
      }
      known := known[g.ip.version := g];
    }
    assert gateways[..|gateways|] == gateways;
    error := None;
  }

  lemma NothingIsKnown()
    ensures KnowsGateways(map[], [])
  {
  }

  /** A family is known exactly when a gateway so far has it. */
  lemma OneMoreGateway(known: map<int, Interface>, gateways: seq<Interface>, i: nat)
    requires i < |gateways| && KnowsGateways(known, gateways[..i])
    ensures gateways[i].ip.version in known <==>
      exists k :: 0 <= k < i && gateways[k].ip.version == gateways[i].ip.version
    ensures gateways[i].ip.version !in known ==>
      KnowsGateways(known[gateways[i].ip.version := gateways[i]], gateways[..i + 1])
  {
    var g := gateways[i];
    assert gateways[..i + 1] == gateways[..i] + [g];
    assert forall k :: 0 <= k < i ==> gateways[k] in gateways[..i];
    if g.ip.version in known {
      var k :| 0 <= k < i && gateways[..i][k] == known[g.ip.version];
      assert gateways[k].ip.version == g.ip.version;
    }
  }

  ghost predicate KnowsGateways(known: map<int, Interface>, gateways: seq<Interface>) {
    && (forall v :: v in known ==> known[v] in gateways && known[v].ip.version == v)
    && (forall g :: g in gateways ==> g.ip.version in known && known[g.ip.version] == g)
  }

  /** The tests on one peer address (lines 166 to 178). */
  method ValidatePeerAddress(a: Address, gateways: seq<Interface>, known: map<int, Interface>)
    returns (error: Option<ConfigError>)
    requires KnowsGateways(known, gateways)
    ensures error.None? <==> Hosted(gateways, a)
  {
    hide Unicast, NetworkIn, Contains;
    if !Unicast(a) {
      return Some(PeerNotUnicast);
    }
    if a.version !in known {
      return Some(PeerWithoutGateway);
    }
    if !Contains(NetworkIn(known[a.version]), a) {
      return Some(PeerOutsideGateway);
    }
    for i := 0 to |gateways|
      invariant forall k :: 0 <= k < i ==> gateways[k].ip != a
    {
      if gateways[i].ip == a {
        return Some(PeerIsGateway);
      }
    }
    return None;
  }

  method ValidatePeerAddresses(
    p: PeerConfig, gateways: seq<Interface>, known: map<int, Interface>, seen: set<Address>)
    returns (error: Option<ConfigError>, more: set<Address>)
    requires KnowsGateways(known, gateways)
    ensures error.None? <==>
      HostedPeer(gateways, p) && Distinct(Addresses(p)) && forall a :: a in Addresses(p) ==> a !in seen
    ensures error.None? ==> forall a :: a in more <==> a in seen || a in Addresses(p)
  {
    hide Hosted, KnowsGateways;
    more := seen;
    for i := 0 to |p.addresses|
      invariant forall a :: a in more <==> a in seen || a in Addresses(p)[..i]
      invariant forall k :: 0 <= k < i ==> Hosted(gateways, p.addresses[k].ip)
      invariant Distinct(Addresses(p)[..i])
      invariant forall k :: 0 <= k < i ==> Addresses(p)[k] !in seen
    {
      var a := p.addresses[i].ip;
      assert Addresses(p)[..i + 1] == Addresses(p)[..i] + [a];
      error := ValidatePeerAddress(a, gateways, known);
      if error.Some? {
        return;
      }
      if a in more {
        assert Addresses(p)[i] == a;
        error := Some(PeerAddressTwice);
        return;
      }
      more := more + {a};
    }
    assert Addresses(p)[..|p.addresses|] == Addresses(p);
    error := None;
  }

  lemma DistinctAppend<T>(first: seq<T>, second: seq<T>)
    ensures Distinct(first + second) <==>
      Distinct(first) && Distinct(second) && forall x :: x in second ==> x !in first
  {
    var all := first + second;
    if Distinct(all) {
      forall i, k | 0 <= i < k < |first| ensures first[i] != first[k] {
        assert all[i] != all[k];
      }
      forall i, k | 0 <= i < k < |second| ensures second[i] != second[k] {
        assert all[|first| + i] != all[|first| + k];
      }
      forall x | x in second ensures x !in first {
        var k :| 0 <= k < |second| && second[k] == x;
        assert all[|first| + k] == x;
        forall i | 0 <= i < |first| ensures first[i] != x {
          assert all[i] != all[|first| + k];
        }
      }
    }
    if Distinct(first) && Distinct(second) && forall x :: x in second ==> x !in first {
      forall i, k | 0 <= i < k < |all| ensures all[i] != all[k] {
        assert i < |first| <= k ==> all[i] in first && all[k] in second;
        assert i >= |first| ==> second[i - |first|] != second[k - |first|];
      }
    }
  }

  /** One more peer keeps the peers valid exactly when it is new, hosted and disjoint. */
  lemma ValidPeersStep(gateways: seq<Interface>, peers: seq<PeerConfig>, i: nat)
    requires i < |peers|
    ensures ValidPeers(gateways, peers[..i + 1]) <==>
      && ValidPeers(gateways, peers[..i])
      && peers[i].name !in Names(peers[..i])
      && HostedPeer(gateways, peers[i])
      && Distinct(Addresses(peers[i]))
      && (forall a :: a in Addresses(peers[i]) ==> a !in PeerAddresses(peers[..i]))
    ensures PeerAddresses(peers[..i + 1]) == PeerAddresses(peers[..i]) + Addresses(peers[i])
    ensures Names(peers[..i + 1]) == Names(peers[..i]) + [peers[i].name]
  {
    var more := peers[..i + 1];
    assert more[..|more| - 1] == peers[..i] && more[|more| - 1] == peers[i];
    hide HostedPeer, PeerAddresses, Addresses;
    assert PeerAddresses(more) == PeerAddresses(peers[..i]) + Addresses(peers[i]) by { PeerAddressesSplit(more); }
    assert Names(more) == Names(peers[..i]) + [peers[i].name];
    DistinctAppend(Names(peers[..i]), [peers[i].name]);
    DistinctAppend(PeerAddresses(peers[..i]), Addresses(peers[i]));
    assert forall k :: 0 <= k < i ==> more[k] == peers[..i][k];
    hide Names, Distinct;
    assert (forall k :: 0 <= k < |more| ==> HostedPeer(gateways, more[k])) <==>
      (forall k :: 0 <= k < i ==> HostedPeer(gateways, peers[..i][k])) && HostedPeer(gateways, peers[i]);
    DistinctOne(peers[i].name);
  }

  lemma DistinctOne<T>(x: T)
    ensures Distinct([x])
  {
  }

  lemma PeerAddressesSplit(peers: seq<PeerConfig>)
    requires peers != []
    ensures PeerAddresses(peers) == PeerAddresses(peers[..|peers| - 1]) + Addresses(peers[|peers| - 1])
  {
  }

  /** Once a prefix is invalid, the whole is. */
  lemma {:induction false} ValidPeersPrefix(gateways: seq<Interface>, peers: seq<PeerConfig>, i: nat)
    requires i <= |peers| && ValidPeers(gateways, peers)
    ensures ValidPeers(gateways, peers[..i])
    decreases |peers| - i
  {
    if i == |peers| {
      assert peers[..i] == peers;
    } else {
      ValidPeersPrefix(gateways, peers, i + 1);
      ValidPeersStep(gateways, peers, i);
    }
  }

  method ValidatePeers(peers: seq<PeerConfig>, gateways: seq<Interface>, known: map<int, Interface>)
    returns (error: Option<ConfigError>)
    requires KnowsGateways(known, gateways)
    ensures error.None? <==> ValidPeers(gateways, peers)
  {
    hide HostedPeer, KnowsGateways, Addresses, PeerAddresses, Names, Distinct;
    EmptyPeers(gateways);
    var names: set<string> := {};
    var seen: set<Address> := {};
    assert peers[..0] == [];
    for i := 0 to |peers|
      invariant ValidPeers(gateways, peers[..i])
      invariant forall n :: n in names <==> n in Names(peers[..i])
      invariant forall a :: a in seen <==> a in PeerAddresses(peers[..i])
    {
      ValidPeersStep(gateways, peers, i);
      if ValidPeers(gateways, peers) {
        ValidPeersPrefix(gateways, peers, i + 1);
      }
      if peers[i].name in names {
        return Some(PeerNameTwice);
      }
      names := names + {peers[i].name};
      error, seen := ValidatePeerAddresses(peers[i], gateways, known, seen);
      if error.Some? {
        return;
      }
    }
    assert peers[..|peers|] == peers;
    return None;
  }

  lemma EmptyPeers(gateways: seq<Interface>)
    ensures ValidPeers(gateways, []) && Names([]) == [] && PeerAddresses([]) == []
  {
  }

  /** `validate_network`: accepts exactly the valid networks. */
  method ValidateNetwork(w: WireGuardConfig) returns (error: Option<ConfigError>)
    ensures error.None? <==> ValidWireGuard(w)
  {
    hide Unicast, ValidGateways, ValidPeers;
    if w.binds == [] {
      return Some(NoBind);
    }
    var twice := HasTwice(w.binds);
    if twice {
      return Some(BindTwice);
    }
    for i := 0 to |w.binds|
      invariant forall k :: 0 <= k < i ==> Unicast(w.binds[k])
    {
      if !Unicast(w.binds[i]) {
        return Some(BindNotUnicast);
      }
    }
    if w.gateways == [] {
      return Some(NoGateway);
    }
    if w.peers == [] {
      return Some(NoPeer);
    }
    var known;
    error, known := ValidateGateways(w.gateways);
    if error.Some? {
      return;
    }
    error := ValidatePeers(w.peers, w.gateways, known);
  }

  /** `len(set(items)) != len(items)` */
  method HasTwice<T(==)>(items: seq<T>) returns (twice: bool)
    ensures twice <==> !Distinct(items)
  {
    var seen: set<T> := {};
    for i := 0 to |items|
      invariant forall x :: x in seen <==> exists k :: 0 <= k < i && items[k] == x
      invariant forall j, k :: 0 <= j < k < i ==> items[j] != items[k]
    {
      if items[i] in seen {
        return true;
      }
      seen := seen + {items[i]};
    }
    return false;
  }

  /** Any two addresses of the peers, of one peer or of two, are different. */
  lemma {:induction false} PeersShareNothing(
    gateways: seq<Interface>, peers: seq<PeerConfig>, i: nat, k: nat, a: Address)
    requires ValidPeers(gateways, peers) && i < k < |peers|
    ensures peers[i].name != peers[k].name
    ensures !(a in Addresses(peers[i]) && a in Addresses(peers[k]))
    decreases |peers|
  {
    assert Names(peers)[i] != Names(peers)[k];
    hide HostedPeer, Distinct;
    ValidPeersPrefix(gateways, peers, k + 1);
    ValidPeersStep(gateways, peers, k);
    assert peers[..k][i] == peers[i];
    if a in Addresses(peers[i]) {
      ContainsAddresses(peers[..k], i, a);
    }
  }

  lemma {:induction false} ContainsAddresses(peers: seq<PeerConfig>, i: nat, a: Address)
    requires i < |peers| && a in Addresses(peers[i])
    ensures a in PeerAddresses(peers)
    decreases |peers|
  {
    hide Addresses;
    if i < |peers| - 1 {
      ContainsAddresses(peers[..|peers| - 1], i, a);
    }
  }

  // -------------------------------------------------------- routes and upstream

  /** `validate_routes` (line 250): what it refuses, in order. */
  function RoutesError(r: RoutingConfig): Option<ConfigError> {
    if r.mode == Selected && r.networks == [] then Some(NoRoute)
    else if r.mode == Full && r.networks != [] then Some(RouteWithFull)
    else if !Distinct(r.networks) then Some(RouteTwice)
    else if r.mode == Selected && exists i :: 0 <= i < |r.networks| && EntirelyMulticast(r.networks[i]) then
      Some(RouteMulticast)
    else None
  }

  predicate EntirelyMulticast(route: Network) {
    IsMulticast(First(route)) && IsMulticast(Last(route))
  }

  /** `validate_upstream` (line 272) */
  function UpstreamError(d: DNSConfig): Option<ConfigError> {
    if d.enabled && d.upstream.None? then Some(DnsWithoutUpstream)
    else if !d.enabled && d.upstream.Some? then Some(UpstreamWithoutDns)
    else if d.upstream.Some? && !Unicast(d.upstream.value) then Some(UpstreamNotUnicast)
    else None
  }

  predicate HasFamily(gateways: seq<Interface>, version: int) {
    exists i :: 0 <= i < |gateways| && gateways[i].ip.version == version
  }

  /** `effective_routes` (line 357) */
  function EffectiveRoutes(c: ProjectConfig): seq<Network> {
    if c.routing.mode == Selected then c.routing.networks
    else
      (if HasFamily(c.wireguard.gateways, 4) then [Network(4, 0, 0)] else [])
      + (if HasFamily(c.wireguard.gateways, 6) then [Network(6, 0, 0)] else [])
  }

  predicate InSome(networks: seq<Network>, a: Address) {
    exists i :: 0 <= i < |networks| && Contains(networks[i], a)
  }

  function GatewayNetworks(gateways: seq<Interface>): seq<Network> {
    seq(|gateways|, i requires 0 <= i < |gateways| => NetworkIn(gateways[i]))
  }

  predicate PeerHasFamily(p: PeerConfig, version: int) {
    exists k :: 0 <= k < |p.addresses| && p.addresses[k].ip.version == version
  }

  /** `validate_cross_fields` (line 325) */
  function CrossFieldsError(c: ProjectConfig): Option<ConfigError> {
    var routes := EffectiveRoutes(c);
    var upstream := if c.dns.enabled then c.dns.upstream else None;
    if exists i :: 0 <= i < |routes| && !HasFamily(c.wireguard.gateways, routes[i].version) then
      Some(RouteWithoutGateway)
    else if upstream.None? then None
    else if InSome(GatewayNetworks(c.wireguard.gateways), upstream.value) then Some(UpstreamInGateway)
    else if !InSome(routes, upstream.value) then Some(UpstreamNotRouted)
    else if exists i :: 0 <= i < |c.wireguard.peers|
                        && !PeerHasFamily(c.wireguard.peers[i], upstream.value.version) then
      Some(UpstreamWithoutPeer)
    else None
  }

  /** Everything the program accepts as a configuration, as far as it bears on routing. */
  ghost predicate Accepted(c: ProjectConfig) {
    && Parsed(c)
    && (forall i :: 0 <= i < |c.wireguard.peers| ==> ValidPeer(c.wireguard.peers[i]))
    && ValidWireGuard(c.wireguard)
    && RoutesError(c.routing).None?
    && UpstreamError(c.dns).None?
    && CrossFieldsError(c).None?
  }

  /** DNS: enabled with a unicast server, outside the gateway networks, routed, and of a
    family that every peer has. */
  ghost predicate UsableDns(c: ProjectConfig) {
    && (c.dns.enabled <==> c.dns.upstream.Some?)
    && (c.dns.enabled ==>
          var a := c.dns.upstream.value;
          && !IsUnspecified(a) && !IsMulticast(a)
          && (forall g :: g in c.wireguard.gateways ==> !Contains(NetworkIn(g), a))
          && (exists r :: r in EffectiveRoutes(c) && Contains(r, a))
          && (forall p :: p in c.wireguard.peers ==> exists i :: i in p.addresses && i.ip.version == a.version))
  }

  /** Routes: some when selected, none when full, no two alike, none all multicast, each
    of a gateway's family. */
  ghost predicate UsableRoutes(c: ProjectConfig) {
    && (c.routing.mode == Selected <==> c.routing.networks != [])
    && (forall i, k :: 0 <= i < k < |c.routing.networks| ==> c.routing.networks[i] != c.routing.networks[k])
    && (forall r :: r in c.routing.networks ==> !(IsMulticast(First(r)) && IsMulticast(Last(r))))
    && (forall r :: r in c.routing.networks ==> exists g :: g in c.wireguard.gateways && g.ip.version == r.version)
  }

  /** What is accepted, said without the checks. */
  lemma {:induction false} AcceptedMeans(c: ProjectConfig)
    ensures Accepted(c) <==>
      && Parsed(c)
      && (forall i :: 0 <= i < |c.wireguard.peers| ==> ValidPeer(c.wireguard.peers[i]))
      && ValidWireGuard(c.wireguard)
      && UsableRoutes(c)
      && UsableDns(c)
  {
    ChecksMean(c);
    hide Parsed, ValidPeer, ValidWireGuard, RoutesError, UpstreamError, CrossFieldsError, UsableRoutes, UsableDns;
  }

  lemma ChecksMean(c: ProjectConfig)
    ensures RoutesError(c.routing).None? && UpstreamError(c.dns).None? && CrossFieldsError(c).None? <==>
      UsableRoutes(c) && UsableDns(c)
  {
    RoutesMean(c.routing);
    FamiliesMean(c);
    hide RoutesError, EffectiveRoutes, HasFamily, Contains, IsMulticast, IsUnspecified, NetworkIn, First, Last;
    if c.dns.upstream.Some? {
      UpstreamMeans(c, c.dns.upstream.value);
    }
    hide InSome, GatewayNetworks, PeerHasFamily;
    assert UpstreamError(c.dns).None? <==>
      (c.dns.enabled <==> c.dns.upstream.Some?)
      && (c.dns.enabled ==> !IsUnspecified(c.dns.upstream.value) && !IsMulticast(c.dns.upstream.value));
  }

  lemma RoutesMean(r: RoutingConfig)
    ensures RoutesError(r).None? <==>
      && (r.mode == Selected <==> r.networks != [])
      && (forall i, k :: 0 <= i < k < |r.networks| ==> r.networks[i] != r.networks[k])
      && (forall n :: n in r.networks ==> !(IsMulticast(First(n)) && IsMulticast(Last(n))))
  {
    hide IsMulticast, First, Last;
    if forall n :: n in r.networks ==> !(IsMulticast(First(n)) && IsMulticast(Last(n))) {
      forall i | 0 <= i < |r.networks| ensures !EntirelyMulticast(r.networks[i]) {
        assert r.networks[i] in r.networks;
      }
    }
  }

  lemma FamiliesMean(c: ProjectConfig)
    ensures (exists i :: 0 <= i < |EffectiveRoutes(c)| && !HasFamily(c.wireguard.gateways, EffectiveRoutes(c)[i].version))
      <==> c.routing.mode == Selected
           && !forall r :: r in c.routing.networks ==> exists g :: g in c.wireguard.gateways && g.ip.version == r.version
  {
    forall v ensures HasFamily(c.wireguard.gateways, v) <==> exists g :: g in c.wireguard.gateways && g.ip.version == v {
      HasFamilyMeans(c.wireguard.gateways, v);
    }
    hide HasFamily;
    if c.routing.mode == Selected {
      assert EffectiveRoutes(c) == c.routing.networks;
      forall r | r in c.routing.networks ensures exists i :: 0 <= i < |EffectiveRoutes(c)| && EffectiveRoutes(c)[i] == r {
        var i :| 0 <= i < |c.routing.networks| && c.routing.networks[i] == r;
      }
    }
  }

  lemma HasFamilyMeans(gateways: seq<Interface>, v: int)
    ensures HasFamily(gateways, v) <==> exists g :: g in gateways && g.ip.version == v
  {
    if g :| g in gateways && g.ip.version == v {
      var i :| 0 <= i < |gateways| && gateways[i] == g;
    }
  }

  lemma UpstreamMeans(c: ProjectConfig, a: Address)
    ensures InSome(GatewayNetworks(c.wireguard.gateways), a) <==>
      exists g :: g in c.wireguard.gateways && Contains(NetworkIn(g), a)
    ensures InSome(EffectiveRoutes(c), a) <==> exists r :: r in EffectiveRoutes(c) && Contains(r, a)
    ensures (forall i :: 0 <= i < |c.wireguard.peers| ==> PeerHasFamily(c.wireguard.peers[i], a.version)) <==>
      forall p :: p in c.wireguard.peers ==> exists i :: i in p.addresses && i.ip.version == a.version
  {
    hide Contains, NetworkIn, EffectiveRoutes;
    var gateways, routes, peers := c.wireguard.gateways, EffectiveRoutes(c), c.wireguard.peers;
    if g :| g in gateways && Contains(NetworkIn(g), a) {
      var i :| 0 <= i < |gateways| && gateways[i] == g;
      assert Contains(GatewayNetworks(gateways)[i], a);
    }
    if r :| r in routes && Contains(r, a) {
      var i :| 0 <= i < |routes| && routes[i] == r;
    }
    forall p | p in peers
      ensures PeerHasFamily(p, a.version) <==> exists i :: i in p.addresses && i.ip.version == a.version
    {
      if i :| i in p.addresses && i.ip.version == a.version {
        var k :| 0 <= k < |p.addresses| && p.addresses[k] == i;
      }
    }
    hide PeerHasFamily;
    forall p | p in peers ensures exists i :: 0 <= i < |peers| && peers[i] == p {}
  }

  /** The routes: the selected networks, or the default route of each gateway family. */
  lemma {:induction false} EffectiveRoutesMean(c: ProjectConfig, r: Network)
    requires c.routing.mode == Full ==>
      forall g :: g in c.wireguard.gateways ==> g.ip.version == 4 || g.ip.version == 6
    ensures r in EffectiveRoutes(c) <==>
      if c.routing.mode == Selected then r in c.routing.networks
      else r.base == 0 && r.width == 0 && exists g :: g in c.wireguard.gateways && g.ip.version == r.version
  {
    HasFamilyMeans(c.wireguard.gateways, 4);
    HasFamilyMeans(c.wireguard.gateways, 6);
    hide HasFamily;
  }

  /** Building a configuration runs every check. */
  method ValidateProject(c: ProjectConfig) returns (error: Option<ConfigError>)
    requires Parsed(c)
    ensures error.None? <==> Accepted(c)
  {
    hide Parsed, ValidPeer, ValidWireGuard, RoutesError, UpstreamError, CrossFieldsError;
    for i := 0 to |c.wireguard.peers|
      invariant forall k :: 0 <= k < i ==> ValidPeer(c.wireguard.peers[k])
    {
      error := ValidateAddresses(c.wireguard.peers[i]);
      if error.Some? {
        return;
      }
    }
    error := ValidateNetwork(c.wireguard);
    if error.None? {
      error := RoutesError(c.routing);
    }
    if error.None? {
      error := UpstreamError(c.dns);
    }
    if error.None? {
      error := CrossFieldsError(c);
    }
  }
}
