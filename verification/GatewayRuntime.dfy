/** Starting and stopping the gateway in its network namespace
  (src/shuttle_gate/runtime.py, class GatewayRuntime). */
module GatewayRuntime {
  import opened Wrappers
  import opened Cidr
  import opened Nftables
  import opened TproxyTable
  import opened GatewayConfig
  import opened PacketPath
  import CapturePolicy

  datatype Proxy = Absent | Running | Exited

  /** `wg0`: its addresses, and whether its keys and peers and its MTU are set. */
  datatype Link = Link(addresses: set<Interface>, configured: bool, sized: bool)

  /** What the program sets up. `reported`: the proxy process said READY. */
  datatype Namespace = Namespace(
    filter: bool,
    link: Option<Link>,
    up: bool,
    rules: set<int>,
    routes: set<int>,
    proxy: Proxy,
    reported: bool)

  const Empty := Namespace(false, None, false, {}, {}, Absent, false)

  datatype Command =
    | CheckFilter
    | LoadFilter
    | DeleteFilter
    | AddLink
    | AddAddress(i: Interface)
    | SetConfiguration
    | SetMtu
    | RaiseLink
    | DeleteLink
    | DeleteRule(version: int)
    | ReplaceRoute(version: int)
    | AddRule(version: int)
    | FlushRoutes(version: int)
    | Inspect

  function OnLink(n: Namespace, change: Link -> Link): Namespace {
    if n.link.None? then n else n.(link := Some(change(n.link.value)))
  }

  /** What a command does when it works. */
  function Done(n: Namespace, c: Command): Namespace {
    match c
    case LoadFilter => n.(filter := true)
    case DeleteFilter => n.(filter := false)
    case AddLink => n.(link := Some(Link({}, false, false)))
    case AddAddress(i) => OnLink(n, (l: Link) => l.(addresses := l.addresses + {i}))
    case SetConfiguration => OnLink(n, (l: Link) => l.(configured := true))
    case SetMtu => OnLink(n, (l: Link) => l.(sized := true))
    case RaiseLink => n.(up := n.link.Some?)
    case DeleteLink => n.(link := None, up := false)
    case DeleteRule(v) => n.(rules := n.rules - {v})
    case ReplaceRoute(v) => n.(routes := n.routes + {v})
    case AddRule(v) => n.(rules := n.rules + {v})
    case FlushRoutes(v) => n.(routes := n.routes - {v})
    case _ => n
  }

  /** `wg0` is up only behind the drop table, with policy routing for every routed
    family, after the proxy reported ready. */
  predicate Safe(n: Namespace, families: set<int>) {
    n.up ==> n.filter && families <= n.rules && families <= n.routes && n.reported
  }

  /** `wg0` exists with every gateway address, its peers and its MTU. */
  predicate Equipped(n: Namespace, gateways: seq<Interface>) {
    && n.link.Some? && n.link.value.configured && n.link.value.sized
    && forall i :: 0 <= i < |gateways| ==> gateways[i] in n.link.value.addresses
  }

  /** Whether start-up completed: everything is there. */
  predicate Serving(n: Namespace, c: ProjectConfig) {
    n.up && Equipped(n, c.wireguard.gateways) && Safe(n, Families(EffectiveRoutes(c)))
  }

  /** The part of a namespace that setting up `wg0` changes. */
  predicate SameButLink(m: Namespace, n: Namespace) {
    Same(m, n.(link := m.link))
  }

  function Families(routes: seq<Network>): set<int> {
    set i | 0 <= i < |routes| :: routes[i].version
  }

  /** Every route's family has its rule and its local route. */
  ghost predicate PolicyRouted(n: Namespace, c: ProjectConfig) {
    forall r :: r in EffectiveRoutes(c) ==> r.version in n.rules && r.version in n.routes
  }

  lemma PolicyRoutedMeans(n: Namespace, c: ProjectConfig)
    ensures PolicyRouted(n, c) <==> Families(EffectiveRoutes(c)) <= n.rules && Families(EffectiveRoutes(c)) <= n.routes
  {
    var routes := EffectiveRoutes(c);
    hide EffectiveRoutes;
    assert forall i :: 0 <= i < |routes| ==> routes[i] in routes && routes[i].version in Families(routes);
  }

  /** Everything that start-up sets up is there. */
  lemma {:induction false} ServingMeans(n: Namespace, c: ProjectConfig)
    ensures Serving(n, c) <==>
      && n.up && n.filter && n.reported && PolicyRouted(n, c)
      && n.link.Some? && n.link.value.configured && n.link.value.sized
      && forall g :: g in c.wireguard.gateways ==> g in n.link.value.addresses
  {
    PolicyRoutedMeans(n, c);
    hide EffectiveRoutes, Families;
  }

  /** What is promised of every state. */
  lemma {:induction false} SafeMeans(n: Namespace, c: ProjectConfig)
    ensures Safe(n, Families(EffectiveRoutes(c))) <==> (n.up ==> n.filter && n.reported && PolicyRouted(n, c))
  {
    PolicyRoutedMeans(n, c);
    hide EffectiveRoutes, Families;
  }

  ghost predicate SafeFrom(trace: seq<Namespace>, from: nat, families: set<int>) {
    forall k :: from <= k < |trace| ==> Safe(trace[k], families)
  }

  /** `wg0` is down in every state from the `from`-th on. */
  ghost predicate DownFrom(trace: seq<Namespace>, from: nat) {
    forall k :: from <= k < |trace| ==> !trace[k].up
  }

  lemma DownIsSafe(trace: seq<Namespace>, from: nat, families: set<int>)
    requires DownFrom(trace, from)
    ensures SafeFrom(trace, from, families)
  {
  }

  /** Equal but for the proxy process, which may exit at any time. */
  predicate Same(m: Namespace, n: Namespace) {
    m.(proxy := Absent) == n.(proxy := Absent)
  }

  /** What may become of a process meanwhile. */
  predicate Outlives(before: Proxy, after: Proxy) {
    after == before || (before.Running? && after.Exited?)
  }

  /** Policy routing exists for IPv4 and IPv6 only. */
  predicate TwoFamilies(n: Namespace) {
    n.rules <= {4, 6} && n.routes <= {4, 6}
  }

  class Gateway {
    const config: ProjectConfig
    var space: Namespace
    // Every state of the namespace so far.
    ghost var trace: seq<Namespace>
    // The event that a stop signal sets.
    var stopping: bool
    // Whether a command or a check has failed, or the proxy has exited, since `start`.
    ghost var faulted: bool

    constructor (c: ProjectConfig)
      requires Accepted(c)
      ensures config == c && space == Empty && trace == [Empty]
      ensures Routed() <= {4, 6} && TwoFamilies(space)
    {
      config := c;
      space := Empty;
      trace := [Empty];
      stopping := false;
      faulted := false;
      new;
      RoutedFamilies(c);
    }

    function Routed(): set<int> {
      Families(EffectiveRoutes(config))
    }

    ghost predicate Recorded()
      reads this
    {
      trace != [] && trace[|trace| - 1] == space
    }

    method Become(next: Namespace)
      modifies `space, `trace
      ensures space == next && trace == old(trace) + [next]
    {
      space := next;
      trace := trace + [next];
    }

    /** A while passes; the proxy process may exit. */
    method Elapse()
      modifies `space, `trace, `faulted
      ensures Same(space, old(space)) && Outlives(old(space).proxy, space.proxy)
      ensures trace == old(trace) + [space]
      ensures old(faulted) || space.proxy != old(space).proxy ==> faulted
    {
      var exits: bool := *;
      faulted := faulted || exits;
      Become(if exits && space.proxy.Running? then space.(proxy := Exited) else space);
    }

    /** Whether the environment lets something work. */
    method Works() returns (ok: bool)
      modifies `faulted
      ensures faulted == (old(faulted) || !ok)
    {
      ok := *;
      faulted := faulted || !ok;
    }

    /** A command: one that fails may still have done its work. */
    method Execute(c: Command) returns (ok: bool)
      modifies `space, `trace, `faulted
      ensures |trace| == |old(trace)| + 2 && trace[..|old(trace)|] == old(trace)
      ensures Same(trace[|old(trace)|], old(space)) && trace[|old(trace)| + 1] == space
      ensures Same(space, Done(old(space), c)) || (!ok && Same(space, old(space)))
      ensures Outlives(old(space).proxy, space.proxy)
      ensures old(faulted) || !ok || space.proxy != old(space).proxy ==> faulted
    {
      Elapse();
      ok := Works();
      var works: bool := *;
      Become(if ok || works then Done(space, c) else space);
    }

    /** A command while `wg0` is down and stays down. */
    method Prepare(c: Command, ghost from: nat) returns (ok: bool)
      requires !space.up && !c.RaiseLink? && DownFrom(trace, from)
      modifies `space, `trace, `faulted
      ensures DownFrom(trace, from) && |old(trace)| <= |trace|
      ensures Same(space, Done(old(space), c)) || (!ok && Same(space, old(space)))
      ensures Outlives(old(space).proxy, space.proxy)
      ensures old(faulted) || !ok || space.proxy != old(space).proxy ==> faulted
    {
      ok := Execute(c);
    }

    /** A step on files, keys or the remote host: no namespace object changes. */
    method Other(ghost from: nat) returns (ok: bool)
      requires !space.up && DownFrom(trace, from)
      modifies `space, `trace, `faulted
      ensures DownFrom(trace, from) && |old(trace)| <= |trace|
      ensures Same(space, old(space)) && Outlives(old(space).proxy, space.proxy)
      ensures old(faulted) || !ok || space.proxy != old(space).proxy ==> faulted
    {
      Elapse();
      ok := Works();
    }

    /** `cleanup` (line 267): goes on whatever fails. When the process stops and every
      command does its work, nothing is left. */
    method Cleanup() returns (ok: bool, ghost worked: bool)
      requires TwoFamilies(space)
      modifies `space, `trace, `faulted
      ensures old(trace) <= trace && TwoFamilies(space)
      ensures worked ==> space == Empty
      ensures ok ==> space.proxy.Absent?
      ensures old(faulted) || !ok || !worked ==> faulted
      ensures !old(space).up ==> !space.up
      ensures forall from :: 0 <= from <= |old(trace)| && DownFrom(old(trace), from) && !old(space).up ==>
        DownFrom(trace, from)
    {
      ok := Works();
      Become(space.(proxy := if ok then Absent else space.proxy, reported := false));
      worked := ok;
      var commands := [DeleteFilter, DeleteRule(6), FlushRoutes(6), DeleteRule(4), FlushRoutes(4), DeleteLink];
      for i := 0 to |commands|
        invariant old(trace) <= trace && TwoFamilies(space)
        invariant !old(space).up ==> !space.up
        invariant forall from :: 0 <= from <= |old(trace)| && DownFrom(old(trace), from) && !old(space).up ==>
          DownFrom(trace, from)
        invariant ok ==> space.proxy.Absent?
        invariant old(faulted) || !ok || !worked ==> faulted
        invariant worked ==> CleanedBy(space, i)
      {
        var before := space;
        var done := Execute(commands[i]);
        worked := worked && done;
      }
      // A command that cannot be run at all makes the cleanup incomplete.
      var runnable := Works();
      ok := ok && runnable;
    }

    /** The loop over the gateway addresses (line 345). */
    method AddAddresses(ghost from: nat) returns (ok: bool)
      requires !space.up && space.link.Some? && DownFrom(trace, from)
      modifies `space, `trace, `faulted
      ensures DownFrom(trace, from) && |old(trace)| <= |trace| && !space.up && space.link.Some?
      ensures SameButLink(space, old(space))
      ensures ok ==> forall k :: 0 <= k < |config.wireguard.gateways| ==>
        config.wireguard.gateways[k] in space.link.value.addresses
      ensures old(faulted) || !ok ==> faulted
    {
      hide DownFrom;
      var gateways := config.wireguard.gateways;
      ok := true;
      for i := 0 to |gateways|
        invariant DownFrom(trace, from) && |old(trace)| <= |trace| && space.link.Some? && !space.up
        invariant SameButLink(space, old(space)) && (old(faulted) || !ok ==> faulted)
        invariant forall k :: 0 <= k < i ==> gateways[k] in space.link.value.addresses
      {
        ok := Prepare(AddAddress(gateways[i]), from);
        if !ok {
          return;
        }
      }
    }

    /** `_setup_wireguard` (line 342) */
    method SetupWireguard(ghost from: nat) returns (ok: bool)
      requires !space.up && DownFrom(trace, from)
      modifies `space, `trace, `faulted
      ensures DownFrom(trace, from) && |old(trace)| <= |trace| && !space.up
      ensures SameButLink(space, old(space))
      ensures ok ==> Equipped(space, config.wireguard.gateways)
      ensures old(faulted) || !ok ==> faulted
    {
      hide DownFrom;
      var _ := Prepare(DeleteLink, from);
      ok := Prepare(AddLink, from);
      if ok {
        ok := AddAddresses(from);
      }
      // Keys are read and the configuration file is written.
      if ok {
        ok := Other(from);
      }
      if ok {
        ok := Prepare(SetConfiguration, from);
      }
      if ok {
        ok := Prepare(SetMtu, from);
      }
    }

    /** `_setup_policy_routing` (line 378), the lower family first. */
    method SetupPolicyRouting(ghost from: nat) returns (ok: bool)
      requires !space.up && DownFrom(trace, from)
      requires Routed() <= {4, 6} && TwoFamilies(space)
      modifies `space, `trace, `faulted
      ensures DownFrom(trace, from) && |old(trace)| <= |trace| && !space.up && TwoFamilies(space)
      ensures Same(space.(rules := old(space).rules, routes := old(space).routes), old(space))
      ensures ok ==> Routed() <= space.rules && Routed() <= space.routes
      ensures old(faulted) || !ok ==> faulted
    {
      hide DownFrom;
      var routed := Routed();
      var versions := [4, 6];
      ok := true;
      for i := 0 to 2
        invariant ok && DownFrom(trace, from) && |old(trace)| <= |trace| && !space.up && TwoFamilies(space)
        invariant old(faulted) ==> faulted
        invariant Same(space.(rules := old(space).rules, routes := old(space).routes), old(space))
        invariant i > 0 && 4 in routed ==> 4 in space.rules && 4 in space.routes
        invariant i > 1 && 6 in routed ==> 6 in space.rules && 6 in space.routes
      {
        var v := versions[i];
        if v in routed {
          ok := RouteFamily(v, from);
          if !ok {
            return;
          }
        }
      }
    }

    /** The three commands of one family. */
    method RouteFamily(v: int, ghost from: nat) returns (ok: bool)
      requires !space.up && DownFrom(trace, from) && TwoFamilies(space) && v in {4, 6}
      modifies `space, `trace, `faulted
      ensures DownFrom(trace, from) && |old(trace)| <= |trace| && !space.up && TwoFamilies(space)
      ensures Same(space.(rules := old(space).rules, routes := old(space).routes), old(space))
      ensures forall w :: w != v ==> (w in space.rules <==> w in old(space).rules)
      ensures forall w :: w in old(space).routes ==> w in space.routes
      ensures ok ==> v in space.rules && v in space.routes
      ensures old(faulted) || !ok ==> faulted
    {
      hide DownFrom;
      var _ := Prepare(DeleteRule(v), from);
      ok := Prepare(ReplaceRoute(v), from);
      if ok {
        ok := Prepare(AddRule(v), from);
      }
    }

    /** The time allowed is over. */
    method Expire()
      modifies `faulted
      ensures faulted
    {
      faulted := true;
    }

    /** `_start_sshuttle` (line 426): succeeds only on the READY message. */
    method StartSshuttle(ghost from: nat) returns (ok: bool)
      requires !space.up && DownFrom(trace, from)
      modifies `space, `trace, `faulted
      ensures DownFrom(trace, from) && |old(trace)| <= |trace| && !space.up
      ensures Same(space.(reported := old(space).reported), old(space))
      ensures ok ==> space.reported
      ensures old(faulted) || !ok ==> faulted
      ensures !faulted ==> space.proxy.Running?
    {
      ok := Other(from);
      if !ok {
        return;
      }
      Become(space.(proxy := Running, reported := false));
      var polls: int := *;
      for k := 0 to if polls < 0 then 0 else polls
        invariant DownFrom(trace, from) && |old(trace)| <= |trace| && !space.up
        invariant Same(space.(reported := old(space).reported), old(space))
        invariant (old(faulted) ==> faulted) && (!faulted ==> space.proxy.Running?)
      {
        var received := Other(from);
        if space.proxy != Running {
          return false;
        }
        if received {
          Become(space.(reported := true));
          return true;
        }
      }
      Expire();
      return false;
    }

    /** The steps of `start` before the interface is raised (lines 235 to 245). */
    method PrepareAll(ghost from: nat) returns (ok: bool)
      requires !space.up && DownFrom(trace, from)
      requires Routed() <= {4, 6} && TwoFamilies(space)
      modifies `space, `trace, `faulted
      ensures DownFrom(trace, from) && |old(trace)| <= |trace| && !space.up && TwoFamilies(space)
      ensures ok ==> Equipped(space, config.wireguard.gateways) && space.filter && space.reported
      ensures ok ==> Routed() <= space.rules && Routed() <= space.routes
      ensures old(faulted) || !ok ==> faulted
      ensures ok && !faulted ==> space.proxy.Running?
    {
      hide DownFrom;
      ok := Other(from);
      if ok {
        ok := Other(from);
      }
      if ok {
        ok := Prepare(CheckFilter, from);
      }
      if ok {
        ok := Prepare(LoadFilter, from);
      }
      if ok {
        ok := SetupWireguard(from);
      }
      if ok {
        ok := SetupPolicyRouting(from);
      }
      if ok {
        ok := StartSshuttle(from);
      }
    }

    /** A command or a check that leaves a serving gateway as it is. */
    method Watch(ghost from: nat) returns (ok: bool)
      requires Serving(space, config) && SafeFrom(trace, from, Routed())
      modifies `space, `trace, `faulted
      ensures Same(space, old(space)) && Recorded()
      ensures SafeFrom(trace, from, Routed()) && |old(trace)| <= |trace|
      ensures old(faulted) || !ok || space.proxy != old(space).proxy ==> faulted
    {
      ok := Execute(Inspect);
    }

    /** Raising `wg0` and the checks after it (lines 246 to 248). */
    method Activate(ghost from: nat) returns (ok: bool)
      requires !space.up && DownFrom(trace, from) && TwoFamilies(space)
      requires Equipped(space, config.wireguard.gateways) && space.filter && space.reported
      requires !faulted ==> space.proxy.Running?
      requires Routed() <= space.rules && Routed() <= space.routes
      modifies `space, `trace, `faulted
      ensures SafeFrom(trace, from, Routed()) && |old(trace)| <= |trace| && TwoFamilies(space)
      ensures ok ==> Serving(space, config) && Recorded()
      ensures old(faulted) || !ok ==> faulted
      ensures ok && !faulted ==> space.proxy.Running?
    {
      DownIsSafe(trace, from, Routed());
      ok := Execute(RaiseLink);
      if !ok {
        return;
      }
      hide SafeFrom;
      assert Serving(space, config);
      if space.proxy != Running {
        return false;
      }
      ok := Watch(from);
      if ok {
        ok := Watch(from);
      }
      if ok {
        ok := Watch(from);
      }
      if ok {
        // The status file is written from a last look at the interface.
        ok := Watch(from);
      }
    }

    /** `start` (line 227). At every step until it returns, or until `rollback` when it
      rolls back, `wg0` is up only if the filter, the policy routing of every routed
      family and a ready proxy are there. A rollback whose commands all work leaves
      nothing behind. */
    method Start() returns (ok: bool, ghost rollback: nat, ghost worked: bool)
      requires !space.up && TwoFamilies(space) && Routed() <= {4, 6}
      modifies `space, `trace, `faulted
      ensures |old(trace)| <= rollback <= |trace| && TwoFamilies(space)
      ensures forall k :: |old(trace)| <= k < rollback && trace[k].up ==>
        trace[k].filter && Routed() <= trace[k].rules && Routed() <= trace[k].routes && trace[k].reported
      ensures ok ==> rollback == |trace| && Serving(space, config) && Recorded()
      ensures !ok && worked ==> space == Empty
      ensures !ok || !worked ==> faulted
      ensures ok && !faulted ==> space.proxy.Running?
    {
      ghost var from := |trace|;
      ghost var before := trace;
      faulted := false;
      var clean;
      worked := true;
      clean, worked := Cleanup();
      assert DownFrom(trace, from);
      DownIsSafe(trace, from, Routed());
      rollback := |trace|;
      if !clean {
        return false, rollback, worked;
      }
      ok := Other(from);
      DownIsSafe(trace, from, Routed());
      rollback := |trace|;
      if !ok {
        return false, rollback, worked && space == Empty;
      }
      ok := PrepareAll(from);
      DownIsSafe(trace, from, Routed());
      if ok {
        ok := Activate(from);
      }
      rollback := |trace|;
      if !ok {
        clean, worked := Cleanup();
      }
    }

    /** `supervise` (line 254): until a stop signal sets the event, or until the proxy has
      exited. */
    method Supervise(ghost from: nat) returns (ok: bool)
      requires Serving(space, config) && SafeFrom(trace, from, Routed()) && TwoFamilies(space) && Recorded()
      requires !faulted ==> space.proxy.Running?
      modifies `space, `trace, `stopping, `faulted
      ensures Serving(space, config) && SafeFrom(trace, from, Routed()) && TwoFamilies(space) && Recorded()
      ensures |old(trace)| <= |trace|
      ensures ok ==> stopping
      ensures old(faulted) || !ok ==> faulted
    {
      hide SafeFrom;
      var ticks: int := *;
      for k := 0 to if ticks < 0 then 0 else ticks
        invariant Serving(space, config) && SafeFrom(trace, from, Routed()) && TwoFamilies(space) && Recorded()
        invariant |old(trace)| <= |trace|
        invariant (old(faulted) ==> faulted) && (!faulted ==> space.proxy.Running?)
      {
        if stopping {
          return true;
        }
        ok := Watch(from);
        if space.proxy != Running || !ok {
          return false;
        }
      }
      // The signal arrives some time.
      stopping := true;
      return true;
    }

    /** `run_gateway` from `start` on (line 552): safe at every step until the first
      cleanup after start-up begins, whatever fails; and nothing is left when the last
      cleanup's commands all work. */
    method Run() returns (code: Option<int>, ghost ending: nat, ghost worked: bool)
      requires !space.up && TwoFamilies(space) && Routed() <= {4, 6}
      modifies `space, `trace, `stopping, `faulted
      ensures |old(trace)| <= ending <= |trace|
      ensures forall k :: |old(trace)| <= k < ending && trace[k].up ==>
        trace[k].filter && Routed() <= trace[k].rules && Routed() <= trace[k].routes && trace[k].reported
      ensures worked ==> space == Empty
      ensures code.None? || !worked ==> faulted
      ensures code.Some? ==>
        code == Some(0) && stopping && 0 < ending && Serving(trace[ending - 1], config) && space.proxy.Absent?
    {
      ghost var from := |trace|;
      var ok;
      ok, ending, worked := Start();
      if ok {
        ok := Supervise(from);
        ending := |trace|;
      }
      var clean;
      clean, worked := Cleanup();
      return if ok && clean then Some(0) else None, ending, worked;
    }
  }

  /** What is gone after the first `i` cleanup commands. */
  predicate CleanedBy(n: Namespace, i: nat) {
    && n.proxy == Absent && !n.reported && TwoFamilies(n)
    && (i > 0 ==> !n.filter)
    && (i > 1 ==> 6 !in n.rules)
    && (i > 2 ==> 6 !in n.routes)
    && (i > 3 ==> 4 !in n.rules)
    && (i > 4 ==> 4 !in n.routes)
    && (i > 5 ==> n.link.None? && !n.up)
  }

  /** What happens to a packet from `wg0`, which arrives only when the interface is up.
    Without the filter nothing is promised. */
  function Arriving(n: Namespace, tables: seq<Table>, reachable: bool, p: Packet): Option<Fate> {
    if !n.up then Some(Dropped)
    else if n.filter then Some(FateOf(tables, n.rules * n.routes, reachable, p))
    else None
  }

  /** In a safe namespace traffic from phones is dropped or goes to the proxy, even
    when the proxy has died and its tables are gone; and it goes to the proxy only for
    a family with policy routing. */
  lemma {:induction false} SafeMeansFailClosed(n: Namespace, families: set<int>, tables: seq<Table>, reachable: bool, p: Packet)
    requires Safe(n, families) && AllCompiled(tables)
    requires ValidAddress(p.destination) && p.iif == ProxyIngressInterface && p.mark == 0
    ensures Arriving(n, tables, reachable, p) in {Some(Dropped), Some(ToProxy)}
    ensures Arriving(n, tables, reachable, p) == Some(ToProxy) ==> SomeMarks(tables, p)
    ensures n.up && p.destination.version in families && SomeMarks(tables, p) ==>
      Arriving(n, tables, reachable, p) == Some(ToProxy)
    ensures tables == [] ==> Arriving(n, tables, reachable, p) == Some(Dropped)
  {
    FailClosed(tables, n.rules * n.routes, reachable, p);
    hide FateOf, AllCompiled, ValidAddress;
  }

  /** For an accepted configuration the routed families are families of the gateway,
    IPv4 or IPv6. */
  lemma RoutedFamilies(c: ProjectConfig)
    requires Accepted(c)
    ensures Families(EffectiveRoutes(c)) <= {4, 6}
    ensures forall v :: v in Families(EffectiveRoutes(c)) ==> HasFamily(c.wireguard.gateways, v)
  {
    CapturePolicy.AcceptedIsParsed(c);
    CapturePolicy.RoutesAreNetworks(c);
    var routes := EffectiveRoutes(c);
    forall i | 0 <= i < |routes| ensures routes[i].version in {4, 6} && HasFamily(c.wireguard.gateways, routes[i].version) {
      assert routes[i] in routes;
      assert CrossFieldsError(c).None?;
      CapturePolicy.RouteHasFamily(c, routes[i]);
      assert ValidNetwork(routes[i]);
    }
    hide EffectiveRoutes, HasFamily, Accepted;
  }
}
