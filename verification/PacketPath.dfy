/** The way of a packet through the gateway's namespace: the proxy tables, policy
  routing by mark, and the filter of src/shuttle_gate/runtime.py line 178. */
module PacketPath {
  import opened Wrappers
  import opened Cidr
  import opened Nftables
  import opened TproxyTable
  import opened GatewayConfig
  import opened CapturePolicy

  const TproxyMark := "0x1"

  /** The mark in the filter and in the policy rule. */
  function MarkNumber(): nat {
    MarkValue(TproxyMark)
  }

  function InputChain(): Chain {
    Chain(Accept, [Rule([IifIs(ProxyIngressInterface), MarkIsNot(MarkNumber())], None, None, Drop)])
  }

  function ForwardChain(): Chain {
    Chain(Drop, [Rule([IifIs(ProxyIngressInterface)], None, None, Drop), Rule([], None, None, Drop)])
  }

  predicate Applies(table: Table, p: Packet) {
    if table.family == "ip" then p.destination.version == 4
    else if table.family == "ip6" then p.destination.version == 6
    else true
  }

  /** The prerouting chains in turn: each may mark the packet. */
  function Preroute(tables: seq<Table>, p: Packet): Packet {
    if tables == [] then p
    else if Applies(tables[0], p) then Preroute(tables[1..], p.(mark := Evaluate(tables[0].chain, p).mark))
    else Preroute(tables[1..], p)
  }

  datatype Fate = Dropped | ToProxy | ToNamespace | Forwarded

  /** `routed` holds the families with a policy rule for marked packets; `reachable`
    says whether the ordinary routing table knows the destination. */
  function FateOf(tables: seq<Table>, routed: set<int>, reachable: bool, p: Packet): Fate {
    var after := Preroute(tables, p);
    var delivered := after.local || (after.mark == MarkNumber() && after.destination.version in routed);
    if delivered then
      if Evaluate(InputChain(), after).dropped then Dropped
      else if after.mark == MarkNumber() && !after.local then ToProxy
      else ToNamespace
    else if reachable && !Evaluate(ForwardChain(), after).dropped then Forwarded
    else Dropped
  }

  /** A table the proxy method renders, from any subnets whatever. */
  ghost predicate Compiled(table: Table) {
    exists port, family, subnets, udp :: Rendered(port, family, subnets, udp, TproxyMark) == Ok(table)
  }

  ghost predicate AllCompiled(tables: seq<Table>) {
    forall i :: 0 <= i < |tables| ==> Compiled(tables[i])
  }

  /** The table applies and marks the packet. */
  predicate Marks(table: Table, p: Packet) {
    Applies(table, p) && Evaluate(table.chain, p).mark == MarkNumber()
  }

  predicate SomeMarks(tables: seq<Table>, p: Packet) {
    exists i :: 0 <= i < |tables| && Marks(tables[i], p)
  }

  lemma MarkIsOne()
    ensures MarkNumber() == 1
  {
    assert TproxyMark[2..] == "1";
    assert HexValue("") == 0;
    assert "1"[..0] == "";
    assert HexValue("1") == 16 * HexValue("1"[..0]) + HexDigit('1');
  }

  /** A compiled table leaves the packet unmarked or gives it the mark, whichever way
    it came in, and never marks local traffic or other interfaces' traffic. */
  lemma CompiledMarks(table: Table, p: Packet)
    requires Compiled(table) && Applies(table, p) && ValidAddress(p.destination)
    ensures Evaluate(table.chain, p).mark in {p.mark, MarkNumber()}
    ensures Marks(table, p) && p.mark != MarkNumber() ==> !p.local && p.iif == ProxyIngressInterface
    ensures p.mark == MarkNumber() ==> Marks(table, p)
  {
    var port, family, subnets, udp :| Rendered(port, family, subnets, udp, TproxyMark) == Ok(table);
    RenderedIffValid(port, family, subnets, udp, TproxyMark);
    assert p.destination.version == Version(family);
    hide Captured, Rendered, Evaluate, MarkValue;
    TableMeaning(port, family, subnets, udp, TproxyMark, table, p);
  }

  /** Over all the tables: the packet is marked if it was, or if some table marks it. */
  lemma {:induction false} PrerouteMarks(tables: seq<Table>, p: Packet)
    requires AllCompiled(tables) && ValidAddress(p.destination)
    ensures var after := Preroute(tables, p);
      && after == p.(mark := after.mark)
      && after.mark in {p.mark, MarkNumber()}
      && (after.mark == MarkNumber() <==> p.mark == MarkNumber() || SomeMarks(tables, p))
      && (after.mark == MarkNumber() && p.mark != MarkNumber() ==> !p.local && p.iif == ProxyIngressInterface)
    decreases |tables|
  {
    hide ValidAddress, Compiled, Evaluate, Applies, MarkNumber;
    if tables != [] {
      var rest := tables[1..];
      assert Compiled(tables[0]);
      assert forall i :: 0 <= i < |rest| ==> rest[i] == tables[i + 1];
      assert SomeMarks(tables, p) <==> Marks(tables[0], p) || SomeMarks(rest, p) by {
        if SomeMarks(rest, p) {
          var i :| 0 <= i < |rest| && Marks(rest[i], p);
          assert Marks(tables[i + 1], p);
        }
      }
      if Applies(tables[0], p) {
        CompiledMarks(tables[0], p);
        PrerouteMarks(rest, p.(mark := Evaluate(tables[0].chain, p).mark));
      } else {
        PrerouteMarks(rest, p);
      }
    }
  }

  /** Nothing passes the filter except to the proxy: a packet that arrives unmarked on
    wg0 is dropped, or marked and delivered to the proxy, for any subnets, with or
    without proxy tables, with or without policy routing and other routes. */
  lemma {:induction false} FailClosed(tables: seq<Table>, routed: set<int>, reachable: bool, p: Packet)
    requires AllCompiled(tables) && ValidAddress(p.destination)
    requires p.iif == "wg0" && p.mark == 0
    ensures FateOf(tables, routed, reachable, p) in {Dropped, ToProxy}
    ensures FateOf(tables, routed, reachable, p) == ToProxy <==>
      SomeMarks(tables, p) && p.destination.version in routed
    ensures tables == [] ==> FateOf(tables, routed, reachable, p) == Dropped
  {
    var after := Preroute(tables, p);
    PrerouteMarks(tables, p);
    MarkIsOne();
    assert tables == [] ==> !SomeMarks(tables, p);
    hide Preroute, AllCompiled, SomeMarks, ValidAddress, MarkNumber;
    InputDrops(after);
    ForwardDrops(after);
    hide Evaluate, InputChain, ForwardChain;
  }

  lemma InputDrops(p: Packet)
    ensures Evaluate(InputChain(), p).dropped <==> p.iif == ProxyIngressInterface && p.mark != MarkNumber()
  {
    var rule := InputChain().rules[0];
    assert RuleMatches(rule, p) <==> MatchHolds(rule.matches[0], p) && MatchHolds(rule.matches[1], p);
    assert InputChain().rules[1..] == [];
    assert Decide([], p) == None;
    hide MarkNumber;
  }

  lemma ForwardDrops(p: Packet)
    ensures Evaluate(ForwardChain(), p).dropped
  {
    var rules := ForwardChain().rules;
    assert Decide(rules[1..], p) == Some(Apply(Drop, None, p.mark));
    assert Decide(rules, p) == Some(Apply(Drop, None, p.mark));
  }

  /** For an accepted configuration the table renders, whatever the order of its subnets. */
  lemma {:induction false} AcceptedRenders(
    c: ProjectConfig, version: int, port: int, subnets: seq<Subnet>, udp: bool)
    requires Accepted(c) && (version == 4 || version == 6) && 1 <= port <= 65535
    requires Passed(c, version, subnets)
    ensures Rendered(port, FamilyOf(version), subnets, udp, "0x1").Ok?
  {
    AcceptedIsParsed(c);
    hide Accepted;
    RenderedIffValid(port, FamilyOf(version), subnets, udp, "0x1");
    forall s | s in subnets
      ensures s.family == FamilyOf(version) && s.network.Some? && s.network.value.version == version
      ensures 0 <= s.width <= Bits(version) && s.first == s.last == 0
    {
      var a :| a in Arguments(c) && a.network.version == version && s == SubnetOf(a);
      ArgumentsAreNetworks(c, a);
    }
    hide Rendered, Passed, ValidMark, ValidSubnets;
    assert "0x1"[2] == '1' && '1' in "0123456789abcdefABCDEF" by { assert "0123456789abcdefABCDEF"[1] == '1'; }
  }

  /** End to end, for an accepted configuration with its own table and policy routes:
    unmarked TCP and UDP from wg0 reaches the proxy exactly when some route to its
    destination is longer than every exclusion of it, and is dropped otherwise. */
  lemma {:induction false} OnlyRoutedTrafficPasses(
    c: ProjectConfig, port: int, subnets: seq<Subnet>, table: Table, routed: set<int>, reachable: bool, p: Packet)
    requires Accepted(c) && ValidAddress(p.destination)
    requires Passed(c, p.destination.version, subnets)
    requires Rendered(port, FamilyOf(p.destination.version), subnets, true, TproxyMark) == Ok(table)
    requires forall v :: v in routed <==> exists r :: r in EffectiveRoutes(c) && r.version == v
    requires p.mark == 0 && Eligible(p, FamilyOf(p.destination.version), true)
    ensures FateOf([table], routed, reachable, p)
            == if RouteWins(c, p.destination) then ToProxy else Dropped
    ensures InMulticast(p.destination) || p.destination == Broadcast() ==>
      FateOf([table], routed, reachable, p) == Dropped
  {
    var family := FamilyOf(p.destination.version);
    AcceptedIsParsed(c);
    assert Compiled(table);
    MarkIsOne();
    FamilyIsVersion(p.destination);
    CaptureIsRouteWins(c, subnets, p);
    ChainIsBestSubnet(port, family, subnets, true, TproxyMark, table, p);
    assert Applies(table, p);
    assert Marks(table, p) <==> RouteWins(c, p.destination);
    assert SomeMarks([table], p) <==> Marks([table][0], p);
    FailClosed([table], routed, reachable, p);
    hide Accepted, ValidAddress, Passed, Rendered, Captured, Evaluate, Eligible, FateOf, Marks, SomeMarks,
      InMulticast, Broadcast, MarkValue;
    if RouteWins(c, p.destination) {
      var r :| r in EffectiveRoutes(c) && Contains(r, p.destination) && Outranks(c, r, p.destination);
      ContainsVersion(r, p.destination);
    }
    if InMulticast(p.destination) || p.destination == Broadcast() {
      NoRouteWinsMulticast(c, p.destination);
    }
  }
}
