/** The part of nftables the program writes rules in, and what those rules do. */
module Nftables {
  import opened Wrappers
  import opened Cidr

  datatype Protocol = Tcp | Udp | OtherProtocol

  datatype Packet = Packet(
    iif: string,
    destination: Address,
    protocol: Protocol,
    dport: nat,
    mark: nat,
    // `fib daddr type local`: an address of the namespace itself.
    local: bool,
    // `socket transparent 1`: a transparent socket owns the flow already.
    transparent: bool)

  datatype Match =
    | IifIs(name: string)
    | IifIsNot(name: string)
    | LocalDestination
    | TransparentSocket
    | Daddr(network: Network)
    | Dport(protocol: Protocol, first: int, last: int)
    | L4Protocol(protocol: Protocol)
    | MarkIsNot(mark: nat)

  datatype Verdict = Accept | Return | Drop

  /** Every rule here ends with a verdict. */
  datatype Rule = Rule(matches: seq<Match>, tproxy: Option<nat>, setMark: Option<nat>, verdict: Verdict)

  datatype Chain = Chain(policy: Verdict, rules: seq<Rule>)

  /** A table with one base chain; `family` is ip, ip6 or inet. */
  datatype Table = Table(family: string, name: string, chain: Chain)

  /** What a chain does to a packet. */
  datatype Effect = Effect(proxy: Option<nat>, mark: nat, dropped: bool)

  predicate MatchHolds(m: Match, p: Packet) {
    match m
    case IifIs(name) => p.iif == name
    case IifIsNot(name) => p.iif != name
    case LocalDestination => p.local
    case TransparentSocket => p.transparent
    case Daddr(network) => Contains(network, p.destination)
    case Dport(protocol, first, last) => p.protocol == protocol && first <= p.dport <= last
    case L4Protocol(protocol) => p.protocol == protocol
    case MarkIsNot(mark) => p.mark != mark
  }

  predicate RuleMatches(rule: Rule, p: Packet) {
    forall i :: 0 <= i < |rule.matches| ==> MatchHolds(rule.matches[i], p)
  }

  function Apply(verdict: Verdict, tproxy: Option<nat>, mark: nat): Effect {
    Effect(tproxy, mark, verdict == Drop)
  }

  /** The first rule that matches decides. */
  function Decide(rules: seq<Rule>, p: Packet): Option<Effect> {
    if rules == [] then None
    else if RuleMatches(rules[0], p) then
      Some(Apply(rules[0].verdict, rules[0].tproxy, if rules[0].setMark.Some? then rules[0].setMark.value else p.mark))
    else Decide(rules[1..], p)
  }

  /** A base chain: without a matching rule, or after `return`, its policy applies. */
  function Evaluate(chain: Chain, p: Packet): Effect {
    var decided := Decide(chain.rules, p);
    if decided.Some? then decided.value else Apply(chain.policy, None, p.mark)
  }

  lemma {:induction false} DecideAppend(first: seq<Rule>, second: seq<Rule>, p: Packet)
    ensures Decide(first + second, p) == if Decide(first, p).Some? then Decide(first, p) else Decide(second, p)
    decreases |first|
  {
    if first == [] {
      assert first + second == second;
    } else {
      assert (first + second)[1..] == first[1..] + second;
      DecideAppend(first[1..], second, p);
    }
  }
}
