/** Compiling sshuttle's subnets to a first-match chain (src/shuttle_gate/nft_tproxy.py). */
module TproxyTable {
  import opened Wrappers
  import opened Cidr
  import opened Nftables
  import opened DecimalText

  const AF_INET := 2
  const AF_INET6 := 10
  const ProxyIngressInterface := "wg0"

  /** One sshuttle subnet. `network` is None for text that is no IP address. */
  datatype Subnet = Subnet(
    family: int, width: int, exclude: bool, network: Option<Address>, first: int, last: int)

  datatype RenderError =
    | UnsupportedFamily | InvalidMark | InvalidPort
    | WrongFamily | InvalidWidth | BadNetwork | FamilyMismatch | InvalidPortRange

  // ------------------------------------------------------------------- weights

  datatype Weight = Weight(span: int, width: int, exclude: bool)

  /** `_subnet_weight` (line 51) */
  function WeightOf(s: Subnet): Weight {
    Weight(-s.last + (if s.first != 0 then s.first else -65535), s.width, s.exclude)
  }

  /** Tuple order, with False below True. */
  predicate Lighter(a: Weight, b: Weight) {
    || a.span < b.span
    || (a.span == b.span && a.width < b.width)
    || (a.span == b.span && a.width == b.width && !a.exclude && b.exclude)
  }

  /** How many ports a subnet is for; first port 0 is for all of them, whatever the last. */
  function Ports(s: Subnet): int {
    if s.first == 0 then 65536 + s.last else s.last - s.first + 1
  }

  /** More specific means fewer ports, then a longer prefix, then excluding; and two
    subnets that neither way differ have the same ports, prefix length and action. */
  lemma {:induction false} HeavierIsMoreSpecific(s: Subnet, t: Subnet)
    ensures Lighter(WeightOf(s), WeightOf(t)) <==>
      || Ports(t) < Ports(s)
      || (Ports(t) == Ports(s) && (t.width > s.width || (t.width == s.width && t.exclude && !s.exclude)))
    ensures !Lighter(WeightOf(s), WeightOf(t)) && !Lighter(WeightOf(t), WeightOf(s)) <==>
      Ports(t) == Ports(s) && t.width == s.width && t.exclude == s.exclude
  {
  }

  /** Before every lighter or equally heavy subnet. */
  function Place(s: Subnet, sorted: seq<Subnet>): seq<Subnet> {
    if sorted == [] then [s]
    else if Lighter(WeightOf(s), WeightOf(sorted[0])) then [sorted[0]] + Place(s, sorted[1..])
    else [s] + sorted
  }

  /** `sorted(subnets, key=_subnet_weight, reverse=True)`: heaviest first, and stable. */
  function HeaviestFirst(subnets: seq<Subnet>): seq<Subnet> {
    if subnets == [] then [] else Place(subnets[0], HeaviestFirst(subnets[1..]))
  }

  ghost predicate Descending(subnets: seq<Subnet>) {
    forall i, k :: 0 <= i < k < |subnets| ==> !Lighter(WeightOf(subnets[i]), WeightOf(subnets[k]))
  }

  lemma {:induction false} PlaceAdds(s: Subnet, sorted: seq<Subnet>)
    ensures multiset(Place(s, sorted)) == multiset(sorted) + multiset{s}
    decreases |sorted|
  {
    hide Lighter, WeightOf;
    if sorted != [] {
      PlaceAdds(s, sorted[1..]);
      assert sorted == [sorted[0]] + sorted[1..];
    }
  }

  lemma {:induction false} PlaceDescends(s: Subnet, sorted: seq<Subnet>)
    requires Descending(sorted)
    ensures Descending(Place(s, sorted))
    decreases |sorted|
  {
    hide WeightOf;
    if sorted != [] && Lighter(WeightOf(s), WeightOf(sorted[0])) {
      var rest := Place(s, sorted[1..]);
      PlaceDescends(s, sorted[1..]);
      PlaceAdds(s, sorted[1..]);
      hide Lighter, Place;
      forall k | 0 <= k < |rest| ensures !Lighter(WeightOf(sorted[0]), WeightOf(rest[k])) {
        assert rest[k] in multiset(rest);
        LighterIsStrict(WeightOf(s), WeightOf(sorted[0]));
        assert rest[k] == s || rest[k] in sorted[1..];
      }
      assert Descending([sorted[0]] + rest);
    }
  }

  lemma LighterIsStrict(a: Weight, b: Weight)
    requires Lighter(a, b)
    ensures !Lighter(b, a)
  {
  }

  lemma {:induction false} HeaviestFirstSorts(subnets: seq<Subnet>)
    ensures Descending(HeaviestFirst(subnets))
    ensures multiset(HeaviestFirst(subnets)) == multiset(subnets)
    decreases |subnets|
  {
    if subnets != [] {
      HeaviestFirstSorts(subnets[1..]);
      PlaceDescends(subnets[0], HeaviestFirst(subnets[1..]));
      PlaceAdds(subnets[0], HeaviestFirst(subnets[1..]));
      assert subnets == [subnets[0]] + subnets[1..];
    }
  }

  lemma SameMembers(subnets: seq<Subnet>, s: Subnet)
    ensures s in HeaviestFirst(subnets) <==> s in subnets
  {
    HeaviestFirstSorts(subnets);
    assert s in HeaviestFirst(subnets) <==> s in multiset(HeaviestFirst(subnets));
    assert s in subnets <==> s in multiset(subnets);
  }

  // ------------------------------------------------------------------ rendering

  function Version(family: int): int {
    if family == AF_INET then 4 else 6
  }

  /** The checks on one subnet (lines 98 to 106). */
  function CheckSubnet(family: int, s: Subnet): Option<RenderError> {
    if s.family != family then Some(WrongFamily)
    else if !(0 <= s.width <= Bits(Version(family))) then Some(InvalidWidth)
    else if s.network.None? || s.width > Bits(s.network.value.version) then Some(BadNetwork)
    else if s.network.value.version != Version(family) then Some(FamilyMismatch)
    else if !(0 <= s.first <= s.last <= 65535) then Some(InvalidPortRange)
    else None
  }

  function FirstError(family: int, subnets: seq<Subnet>): Option<RenderError> {
    if subnets == [] then None
    else if CheckSubnet(family, subnets[0]).Some? then CheckSubnet(family, subnets[0])
    else FirstError(family, subnets[1..])
  }

  predicate IsHexDigit(c: char) {
    ('0' <= c <= '9') || ('a' <= c <= 'f') || ('A' <= c <= 'F')
  }

  predicate ValidMark(mark: string) {
    |mark| > 2 && mark[..2] == "0x" && forall i :: 2 <= i < |mark| ==> IsHexDigit(mark[i])
  }

  function HexDigit(c: char): nat {
    if '0' <= c <= '9' then (c - '0') as int
    else if 'a' <= c <= 'f' then (c - 'a') as int + 10
    else if 'A' <= c <= 'F' then (c - 'A') as int + 10
    else 0
  }

  function HexValue(digits: string): nat {
    if digits == "" then 0 else 16 * HexValue(digits[..|digits| - 1]) + HexDigit(digits[|digits| - 1])
  }

  function MarkValue(mark: string): nat {
    if |mark| > 2 then HexValue(mark[2..]) else 0
  }

  /** `_match` (line 58) */
  function MatchOf(protocol: Protocol, network: Network, first: int, last: int): seq<Match> {
    if first != 0 then [Daddr(network), Dport(protocol, first, last)]
    else [Daddr(network), L4Protocol(protocol)]
  }

  function NetworkOfSubnet(s: Subnet): Network {
    if s.network.Some? && s.width >= 0 then NetworkOf(s.network.value, s.width) else Network(4, 0, 0)
  }

  function SubnetRule(s: Subnet, protocol: Protocol, port: nat, mark: nat): Rule {
    var matches := MatchOf(protocol, NetworkOfSubnet(s), s.first, s.last);
    if s.exclude then Rule(matches, None, None, Return) else Rule(matches, Some(port), Some(mark), Accept)
  }

  function SubnetRules(s: Subnet, udp: bool, port: nat, mark: nat): seq<Rule> {
    if udp then [SubnetRule(s, Tcp, port, mark), SubnetRule(s, Udp, port, mark)]
    else [SubnetRule(s, Tcp, port, mark)]
  }

  function AllRules(subnets: seq<Subnet>, udp: bool, port: nat, mark: nat): seq<Rule> {
    if subnets == [] then []
    else SubnetRules(subnets[0], udp, port, mark) + AllRules(subnets[1..], udp, port, mark)
  }

  /** The rules before the subnets (lines 86 to 94). */
  function Guards(mark: nat): seq<Rule> {
    [Rule([IifIsNot(ProxyIngressInterface)], None, None, Return),
     Rule([LocalDestination], None, None, Return),
     Rule([TransparentSocket], None, Some(mark), Accept)]
  }

  function NftTableName(port: nat): string {
    "shuttle_gate_tproxy_" + Decimal(port)
  }

  /** Tables of different ports have different names. */
  lemma {:induction false} TableNamesDiffer(m: nat, n: nat)
    ensures NftTableName(m) == NftTableName(n) ==> m == n
    ensures "shuttle_gate_tproxy_" <= NftTableName(m)
  {
    var prefix := "shuttle_gate_tproxy_";
    assert NftTableName(m)[|prefix|..] == Decimal(m) && NftTableName(n)[|prefix|..] == Decimal(n);
    DecimalInjective(m, n);
  }

  function Rendered(port: int, family: int, subnets: seq<Subnet>, udp: bool, mark: string)
    : Result<Table, RenderError>
  {
    if family != AF_INET && family != AF_INET6 then Err(UnsupportedFamily)
    else if !ValidMark(mark) then Err(InvalidMark)
    else if !(1 <= port <= 65535) then Err(InvalidPort)
    else
      var sorted := HeaviestFirst(subnets);
      var error := FirstError(family, sorted);
      if error.Some? then Err(error.value)
      else Ok(Table(
        if family == AF_INET then "ip" else "ip6", NftTableName(port),
        Chain(Accept, Guards(MarkValue(mark)) + AllRules(sorted, udp, port, MarkValue(mark)))))
  }

  lemma {:induction false} AllRulesExtend(subnets: seq<Subnet>, s: Subnet, udp: bool, port: nat, mark: nat)
    ensures AllRules(subnets + [s], udp, port, mark)
            == AllRules(subnets, udp, port, mark) + SubnetRules(s, udp, port, mark)
    decreases |subnets|
  {
    hide SubnetRules;
    if subnets == [] {
      assert subnets + [s] == [s];
    } else {
      assert (subnets + [s])[1..] == subnets[1..] + [s];
      AllRulesExtend(subnets[1..], s, udp, port, mark);
    }
  }

  lemma {:induction false} FirstErrorSplit(family: int, first: seq<Subnet>, second: seq<Subnet>)
    ensures FirstError(family, first + second) ==
      if FirstError(family, first).Some? then FirstError(family, first) else FirstError(family, second)
    decreases |first|
  {
    hide CheckSubnet;
    if first == [] {
      assert first + second == second;
    } else {
      assert (first + second)[1..] == first[1..] + second;
      FirstErrorSplit(family, first[1..], second);
    }
  }

  /** The loop over the protocols of one subnet (line 107). */
  method AppendRules(rules: seq<Rule>, s: Subnet, udp: bool, port: nat, mark: nat) returns (more: seq<Rule>)
    ensures more == rules + SubnetRules(s, udp, port, mark)
  {
    var protocols := if udp then [Tcp, Udp] else [Tcp];
    more := rules;
    for k := 0 to |protocols|
      invariant more == rules + SubnetRules(s, udp, port, mark)[..k]
    {
      more := more + [SubnetRule(s, protocols[k], port, mark)];
    }
  }

  /** `render_tproxy_table` (line 68) */
  method RenderTproxyTable(port: int, family: int, subnets: seq<Subnet>, udp: bool, mark: string)
    returns (r: Result<Table, RenderError>)
    ensures r == Rendered(port, family, subnets, udp, mark)
  {
    if family != AF_INET && family != AF_INET6 {
      return Err(UnsupportedFamily);
    }
    if !ValidMark(mark) {
      return Err(InvalidMark);
    }
    if !(1 <= port <= 65535) {
      return Err(InvalidPort);
    }
    var markValue := MarkValue(mark);
    var rules := Guards(markValue);
    var sorted := HeaviestFirst(subnets);
    hide HeaviestFirst, Guards, SubnetRules, ValidMark, MarkValue, NftTableName, CheckSubnet;
    for i := 0 to |sorted|
      invariant FirstError(family, sorted[..i]).None?
      invariant rules == Guards(markValue) + AllRules(sorted[..i], udp, port, markValue)
    {
      var s := sorted[i];
      assert sorted[..i + 1] == sorted[..i] + [s];
      ErrorAt(family, sorted, i);
      AllRulesExtend(sorted[..i], s, udp, port, markValue);
      var error := CheckSubnet(family, s);
      if error.Some? {
        return Err(error.value);
      }
      rules := AppendRules(rules, s, udp, port, markValue);
    }
    assert sorted[..|sorted|] == sorted;
    return Ok(Table(if family == AF_INET then "ip" else "ip6", NftTableName(port), Chain(Accept, rules)));
  }

  /** Going one subnet further: the first error is there or later. */
  lemma ErrorAt(family: int, subnets: seq<Subnet>, i: nat)
    requires i < |subnets| && FirstError(family, subnets[..i]).None?
    ensures FirstError(family, subnets[..i + 1]) == CheckSubnet(family, subnets[i])
    ensures CheckSubnet(family, subnets[i]).Some? ==> FirstError(family, subnets) == CheckSubnet(family, subnets[i])
  {
    hide CheckSubnet;
    assert subnets[..i + 1] == subnets[..i] + [subnets[i]];
    assert subnets == subnets[..i + 1] + subnets[i + 1..];
    FirstErrorSplit(family, subnets[..i], [subnets[i]]);
    FirstErrorSplit(family, subnets[..i + 1], subnets[i + 1..]);
    assert FirstError(family, [subnets[i]]) == CheckSubnet(family, subnets[i]);
  }

  // -------------------------------------------------- the declarative meaning

  /** The destination and port are the subnet's; first port 0 stands for any port. */
  predicate Covers(s: Subnet, p: Packet) {
    && Contains(NetworkOfSubnet(s), p.destination)
    && (s.first == 0 || s.first <= p.dport <= s.last)
  }

  /** A most specific subnet for the packet: narrowest port span, then longest prefix,
    then exclusion. */
  ghost predicate Best(subnets: seq<Subnet>, p: Packet, s: Subnet) {
    && s in subnets && Covers(s, p)
    && forall t :: t in subnets && Covers(t, p) ==> !Lighter(WeightOf(s), WeightOf(t))
  }

  /** For a valid subnet, an address is covered when it lies in the block of `width` leading
    bits around the given one, whichever address of the block is given. */
  lemma {:induction false} CoversMeans(family: int, s: Subnet, p: Packet)
    requires CheckSubnet(family, s).None? && (family == AF_INET || family == AF_INET6)
    requires Cidr.ValidAddress(s.network.value)
    ensures var (a, d) := (s.network.value, p.destination);
      var size := Size(a.version, s.width);
      Covers(s, p) <==>
        && d.version == a.version
        && (exists k: nat :: k * size <= a.value < k * size + size && k * size <= d.value < k * size + size)
        && (s.first == 0 || s.first <= p.dport <= s.last)
  {
    NetworkOfMeans(s.network.value, s.width, p.destination);
    hide Size, NetworkOf, Contains;
  }

  ghost predicate Captured(subnets: seq<Subnet>, p: Packet) {
    exists s :: Best(subnets, p, s) && !s.exclude
  }

  ghost predicate ValidSubnets(family: int, subnets: seq<Subnet>) {
    forall s :: s in subnets ==> CheckSubnet(family, s).None?
  }

  /** Traffic the subnets are there for. */
  predicate Eligible(p: Packet, family: int, udp: bool) {
    && p.iif == ProxyIngressInterface && !p.local && !p.transparent
    && p.destination.version == Version(family)
    && (p.protocol == Tcp || (p.protocol == Udp && udp))
  }

  lemma {:induction false} NoErrorMeansValid(family: int, subnets: seq<Subnet>)
    ensures FirstError(family, subnets).None? <==> ValidSubnets(family, subnets)
    decreases |subnets|
  {
    hide CheckSubnet;
    if subnets != [] {
      NoErrorMeansValid(family, subnets[1..]);
      assert subnets == [subnets[0]] + subnets[1..];
      assert subnets[0] in subnets;
      assert forall s :: s in subnets[1..] ==> s in subnets;
    }
  }

  lemma CheckSubnetMeans(family: int, s: Subnet)
    requires family == 2 || family == 10
    ensures CheckSubnet(family, s).None? <==>
      && s.family == family
      && 0 <= s.width <= (if family == 2 then 32 else 128)
      && s.network.Some? && s.network.value.version == (if family == 2 then 4 else 6)
      && 0 <= s.first <= s.last <= 65535
  {
  }

  lemma {:induction false} ValidMarkMeans(mark: string)
    ensures ValidMark(mark) <==>
      |mark| > 2 && mark[0] == '0' && mark[1] == 'x'
      && forall i :: 2 <= i < |mark| ==> mark[i] in "0123456789abcdefABCDEF"
  {
    if |mark| > 2 {
      assert mark[..2] == [mark[0], mark[1]];
    }
    forall c ensures IsHexDigit(c) <==> c in "0123456789abcdefABCDEF" {
      HexDigitMeans(c);
    }
  }

  /** The digits and their values. */
  lemma HexDigitMeans(c: char)
    ensures IsHexDigit(c) <==> c in "0123456789abcdefABCDEF"
    ensures forall i :: 0 <= i < 16 ==> HexDigit("0123456789abcdef"[i]) == i
    ensures forall i :: 10 <= i < 16 ==> HexDigit("0123456789ABCDEF"[i]) == i
  {
    var digits := "0123456789abcdefABCDEF";
    assert digits[0] == '0' && digits[1] == '1' && digits[2] == '2' && digits[3] == '3' && digits[4] == '4';
    assert digits[5] == '5' && digits[6] == '6' && digits[7] == '7' && digits[8] == '8' && digits[9] == '9';
    assert digits[10] == 'a' && digits[11] == 'b' && digits[12] == 'c' && digits[13] == 'd' && digits[14] == 'e';
    assert digits[15] == 'f' && digits[16] == 'A' && digits[17] == 'B' && digits[18] == 'C' && digits[19] == 'D';
    assert digits[20] == 'E' && digits[21] == 'F';
  }

  /** A mark counts in base 16, its most significant digit first. */
  lemma {:induction false} MarkValueMeans(digits: string, c: char)
    ensures digits != "" ==> MarkValue("0x" + digits + [c]) == 16 * MarkValue("0x" + digits) + HexDigit(c)
    ensures MarkValue("0x" + [c]) == HexDigit(c)
  {
    assert ("0x" + digits + [c])[2..] == digits + [c] && ("0x" + digits)[2..] == digits;
    assert (digits + [c])[..|digits|] == digits;
    assert ("0x" + [c])[2..] == [c] && |[c]| == 1 && [c][..0] == "";
    assert HexValue([c]) == 16 * HexValue("") + HexDigit(c);
  }

  /** Rendering fails on an unknown family, a mark that is no hexadecimal number, a bad
    port and an invalid subnet, and on nothing else; ports 0 to 0 are valid. */
  lemma {:induction false} RenderedIffValid(port: int, family: int, subnets: seq<Subnet>, udp: bool, mark: string)
    ensures Rendered(port, family, subnets, udp, mark).Ok? <==>
      && (family == 2 || family == 10)
      && (|mark| > 2 && mark[0] == '0' && mark[1] == 'x'
          && forall i :: 2 <= i < |mark| ==> mark[i] in "0123456789abcdefABCDEF")
      && 1 <= port <= 65535
      && forall s :: s in subnets ==>
           && s.family == family
           && 0 <= s.width <= (if family == 2 then 32 else 128)
           && s.network.Some? && s.network.value.version == (if family == 2 then 4 else 6)
           && 0 <= s.first <= s.last <= 65535
    ensures Rendered(port, family, subnets, udp, mark).Ok? <==>
      && family in {AF_INET, AF_INET6} && ValidMark(mark) && 1 <= port <= 65535
      && ValidSubnets(family, subnets)
  {
    NoErrorMeansValid(family, HeaviestFirst(subnets));
    ValidMarkMeans(mark);
    hide FirstError, CheckSubnet, ValidMark, HeaviestFirst;
    forall s ensures s in HeaviestFirst(subnets) <==> s in subnets {
      SameMembers(subnets, s);
    }
    if family == 2 || family == 10 {
      forall s ensures CheckSubnet(family, s).None? <==>
        && s.family == family
        && 0 <= s.width <= (if family == 2 then 32 else 128)
        && s.network.Some? && s.network.value.version == (if family == 2 then 4 else 6)
        && 0 <= s.first <= s.last <= 65535
      {
        CheckSubnetMeans(family, s);
      }
    }
  }

  /** Each error names a fault that is there. */
  lemma {:induction false} RenderErrorsMean(port: int, family: int, subnets: seq<Subnet>, udp: bool, mark: string)
    ensures match Rendered(port, family, subnets, udp, mark)
      case Ok(_) => true
      case Err(UnsupportedFamily) => family != 2 && family != 10
      case Err(InvalidMark) => !ValidMark(mark)
      case Err(InvalidPort) => port < 1 || port > 65535
      case Err(WrongFamily) => exists s :: s in subnets && s.family != family
      case Err(InvalidWidth) =>
        exists s :: s in subnets && (s.width < 0 || s.width > if family == 2 then 32 else 128)
      case Err(BadNetwork) =>
        exists s :: s in subnets && (s.network.None? || (s.network.value.version == 4 && s.width > 32))
      case Err(FamilyMismatch) =>
        exists s :: s in subnets && s.network.Some? && s.network.value.version != (if family == 2 then 4 else 6)
      case Err(InvalidPortRange) => exists s :: s in subnets && !(0 <= s.first <= s.last <= 65535)
  {
    var sorted := HeaviestFirst(subnets);
    if FirstError(family, sorted).Some? {
      var s := FirstFaulty(family, sorted);
      SameMembers(subnets, s);
    }
    hide HeaviestFirst, FirstError, ValidMark;
  }

  lemma {:induction false} FirstFaulty(family: int, subnets: seq<Subnet>) returns (s: Subnet)
    requires FirstError(family, subnets).Some?
    ensures s in subnets && CheckSubnet(family, s) == FirstError(family, subnets)
    decreases |subnets|
  {
    hide CheckSubnet;
    if CheckSubnet(family, subnets[0]).Some? {
      s := subnets[0];
    } else {
      s := FirstFaulty(family, subnets[1..]);
    }
  }

  /** The rules of one subnet decide exactly the packets it covers. */
  lemma SubnetDecides(s: Subnet, udp: bool, port: nat, mark: nat, family: int, p: Packet)
    requires Eligible(p, family, udp)
    ensures Decide(SubnetRules(s, udp, port, mark), p) ==
      if !Covers(s, p) then None
      else if s.exclude then Some(Effect(None, p.mark, false))
      else Some(Effect(Some(port), mark, false))
  {
    hide Contains, NetworkOfSubnet;
    var tcp, other := SubnetRule(s, Tcp, port, mark), SubnetRule(s, Udp, port, mark);
    assert tcp.matches[0] == Daddr(NetworkOfSubnet(s)) && other.matches[0] == Daddr(NetworkOfSubnet(s));
    assert RuleMatches(tcp, p) <==> p.protocol == Tcp && Covers(s, p) by {
      assert RuleMatches(tcp, p) ==> MatchHolds(tcp.matches[0], p) && MatchHolds(tcp.matches[1], p);
    }
    assert RuleMatches(other, p) <==> p.protocol == Udp && Covers(s, p) by {
      assert RuleMatches(other, p) ==> MatchHolds(other.matches[0], p) && MatchHolds(other.matches[1], p);
    }
    hide RuleMatches, Covers, MatchOf;
    if udp {
      assert SubnetRules(s, udp, port, mark) == [tcp] + [other];
      DecideAppend([tcp], [other], p);
    } else {
      DecideAppend([tcp], [], p);
      assert [tcp] + [] == [tcp];
    }
  }

  function FirstCovering(subnets: seq<Subnet>, p: Packet): Option<Subnet> {
    if subnets == [] then None
    else if Covers(subnets[0], p) then Some(subnets[0])
    else FirstCovering(subnets[1..], p)
  }

  function ActionOf(s: Subnet, port: nat, mark: nat, p: Packet): Effect {
    if s.exclude then Effect(None, p.mark, false) else Effect(Some(port), mark, false)
  }

  /** Scanning the rules finds the first subnet that covers the packet. */
  lemma {:induction false} ChainFindsFirst(
    subnets: seq<Subnet>, udp: bool, port: nat, mark: nat, family: int, p: Packet)
    requires Eligible(p, family, udp)
    ensures Decide(AllRules(subnets, udp, port, mark), p) ==
      var first := FirstCovering(subnets, p);
      if first.None? then None else Some(ActionOf(first.value, port, mark, p))
    decreases |subnets|
  {
    hide Covers, SubnetRules, Eligible;
    if subnets != [] {
      SubnetDecides(subnets[0], udp, port, mark, family, p);
      DecideAppend(SubnetRules(subnets[0], udp, port, mark), AllRules(subnets[1..], udp, port, mark), p);
      ChainFindsFirst(subnets[1..], udp, port, mark, family, p);
    }
  }

  /** Heaviest first means most specific first. */
  lemma {:induction false} FirstCoveringIsBest(subnets: seq<Subnet>, p: Packet)
    requires Descending(subnets)
    ensures var first := FirstCovering(subnets, p);
      if first.None? then forall s :: s in subnets ==> !Covers(s, p) else Best(subnets, p, first.value)
    decreases |subnets|
  {
    hide Covers, WeightOf;
    if subnets != [] {
      var rest := subnets[1..];
      assert subnets == [subnets[0]] + rest;
      if Covers(subnets[0], p) {
        forall t | t in subnets && Covers(t, p) ensures !Lighter(WeightOf(subnets[0]), WeightOf(t)) {
          var k :| 0 <= k < |subnets| && subnets[k] == t;
          assert k > 0 ==> !Lighter(WeightOf(subnets[0]), WeightOf(subnets[k]));
        }
      } else {
        assert Descending(rest);
        FirstCoveringIsBest(rest, p);
      }
    }
  }

  lemma BestExists(subnets: seq<Subnet>, p: Packet, s: Subnet)
    requires s in subnets && Covers(s, p)
    ensures exists t :: Best(subnets, p, t)
  {
    var sorted := HeaviestFirst(subnets);
    HeaviestFirstSorts(subnets);
    FirstCoveringIsBest(sorted, p);
    hide Covers, Descending, HeaviestFirst, Lighter, WeightOf;
    forall t ensures t in sorted <==> t in subnets { SameMembers(subnets, t); }
    BestIsAboutMembers(sorted, subnets, p);
  }

  /** Two most specific subnets agree on whether to exclude. */
  lemma BestAgree(subnets: seq<Subnet>, p: Packet, s: Subnet, t: Subnet)
    requires Best(subnets, p, s) && Best(subnets, p, t)
    ensures s.exclude == t.exclude && WeightOf(s) == WeightOf(t)
  {
    assert !Lighter(WeightOf(s), WeightOf(t)) && !Lighter(WeightOf(t), WeightOf(s));
  }

  lemma BestIsAboutMembers(subnets: seq<Subnet>, subnets': seq<Subnet>, p: Packet)
    requires forall s :: s in subnets <==> s in subnets'
    ensures forall s :: Best(subnets, p, s) <==> Best(subnets', p, s)
    ensures Captured(subnets, p) <==> Captured(subnets', p)
  {
    hide Covers, Lighter, WeightOf;
  }

  /** The compiled chain does to every eligible packet what the declarative rule says:
    the action of any most specific subnet that covers it, or nothing. */
  lemma {:induction false} ChainIsBestSubnet(
    port: int, family: int, subnets: seq<Subnet>, udp: bool, mark: string, table: Table, p: Packet)
    requires Rendered(port, family, subnets, udp, mark) == Ok(table)
    requires Eligible(p, family, udp)
    ensures forall s :: Best(subnets, p, s) ==>
      Evaluate(table.chain, p) == ActionOf(s, port, MarkValue(mark), p)
    ensures (forall s :: s in subnets ==> !Covers(s, p)) ==> Evaluate(table.chain, p) == Effect(None, p.mark, false)
    ensures (exists s :: s in subnets && Covers(s, p)) ==> (exists s :: Best(subnets, p, s))
    ensures Evaluate(table.chain, p) ==
      if Captured(subnets, p) then Effect(Some(port), MarkValue(mark), false) else Effect(None, p.mark, false)
  {
    var sorted := HeaviestFirst(subnets);
    var value := MarkValue(mark);
    GuardsStop(value, p);
    DecideAppend(Guards(value), AllRules(sorted, udp, port, value), p);
    ChainFindsFirst(sorted, udp, port, value, family, p);
    HeaviestFirstSorts(subnets);
    FirstCoveringIsBest(sorted, p);
    hide AllRules, Guards, HeaviestFirst, Eligible, Covers, MarkValue, Descending;
    forall s ensures s in sorted <==> s in subnets { SameMembers(subnets, s); }
    BestIsAboutMembers(sorted, subnets, p);
    hide Lighter, WeightOf;
    var first := FirstCovering(sorted, p);
    forall s | Best(subnets, p, s)
      ensures Evaluate(table.chain, p) == ActionOf(s, port, value, p)
    {
      BestAgree(subnets, p, s, first.value);
    }
  }

  /** What the table does to any packet at all, guards included. */
  lemma {:induction false} TableMeaning(
    port: int, family: int, subnets: seq<Subnet>, udp: bool, mark: string, table: Table, p: Packet)
    requires Rendered(port, family, subnets, udp, mark) == Ok(table)
    requires p.destination.version == Version(family)
    ensures Evaluate(table.chain, p) ==
      if p.iif != ProxyIngressInterface || p.local then Effect(None, p.mark, false)
      else if p.transparent then Effect(None, MarkValue(mark), false)
      else if Eligible(p, family, udp) && Captured(subnets, p) then Effect(Some(port), MarkValue(mark), false)
      else Effect(None, p.mark, false)
  {
    if Eligible(p, family, udp) {
      ChainIsBestSubnet(port, family, subnets, udp, mark, table, p);
    } else {
      var sorted, value := HeaviestFirst(subnets), MarkValue(mark);
      DecideAppend(Guards(value), AllRules(sorted, udp, port, value), p);
      hide AllRules, HeaviestFirst, MarkValue, Captured;
      GuardsStop(value, p);
      if p.iif == ProxyIngressInterface && !p.local && !p.transparent {
        OtherTrafficPasses(sorted, udp, port, value, p);
      }
    }
  }

  lemma GuardsStop(mark: nat, p: Packet)
    ensures Decide(Guards(mark), p) ==
      if p.iif != ProxyIngressInterface || p.local then Some(Effect(None, p.mark, false))
      else if p.transparent then Some(Effect(None, mark, false))
      else None
  {
    var rules := Guards(mark);
    assert forall i :: 0 <= i < 3 ==> (RuleMatches(rules[i], p) <==> MatchHolds(rules[i].matches[0], p));
    assert rules[1..][0] == rules[1] && rules[2..][0] == rules[2];
    assert rules[2..][1..] == rules[3..] == [] && rules[1..][1..] == rules[2..];
    assert Decide(rules[3..], p) == None;
    assert Decide(rules[2..], p) == if p.transparent then Some(Effect(None, mark, false)) else None;
  }

  /** Rules for TCP and UDP leave any other protocol alone. */
  lemma {:induction false} OtherTrafficPasses(subnets: seq<Subnet>, udp: bool, port: nat, mark: nat, p: Packet)
    requires p.protocol != Tcp && (p.protocol == Udp ==> !udp)
    ensures Decide(AllRules(subnets, udp, port, mark), p) == None
    decreases |subnets|
  {
    if subnets != [] {
      var s := subnets[0];
      var tcp, other := SubnetRule(s, Tcp, port, mark), SubnetRule(s, Udp, port, mark);
      assert !MatchHolds(tcp.matches[1], p);
      assert udp ==> !MatchHolds(other.matches[1], p);
      assert !RuleMatches(tcp, p) && (udp ==> !RuleMatches(other, p));
      hide RuleMatches, MatchHolds, SubnetRule;
      DecideAppend([tcp], [other], p);
      DecideAppend([tcp], [], p);
      assert [tcp] + [] == [tcp];
      assert SubnetRules(s, udp, port, mark) == if udp then [tcp] + [other] else [tcp];
      DecideAppend(SubnetRules(s, udp, port, mark), AllRules(subnets[1..], udp, port, mark), p);
      OtherTrafficPasses(subnets[1..], udp, port, mark, p);
    }
  }

  /** The table does not depend on the order in which sshuttle passes the subnets:
    it renders either way, and does the same to every packet. */
  lemma {:induction false} OrderDoesNotMatter(
    port: int, family: int, subnets: seq<Subnet>, subnets': seq<Subnet>, udp: bool, mark: string, p: Packet)
    requires multiset(subnets) == multiset(subnets')
    requires p.destination.version == Version(family)
    ensures var a, b := Rendered(port, family, subnets, udp, mark), Rendered(port, family, subnets', udp, mark);
      a.Ok? == b.Ok? && (a.Ok? ==> Evaluate(a.value.chain, p) == Evaluate(b.value.chain, p))
  {
    forall s ensures s in subnets <==> s in subnets' {
      assert s in subnets <==> s in multiset(subnets);
      assert s in subnets' <==> s in multiset(subnets');
    }
    RenderedIffValid(port, family, subnets, udp, mark);
    RenderedIffValid(port, family, subnets', udp, mark);
    BestIsAboutMembers(subnets, subnets', p);
    var a, b := Rendered(port, family, subnets, udp, mark), Rendered(port, family, subnets', udp, mark);
    hide Rendered, Captured, Eligible, ValidMark, CheckSubnet, Evaluate;
    if a.Ok? {
      TableMeaning(port, family, subnets, udp, mark, a.value, p);
      TableMeaning(port, family, subnets', udp, mark, b.value, p);
    }
  }

  /** One more exclusion, wherever it stands, takes away exactly the packets it covers
    and that no strictly more specific subnet wins back; it never adds one. */
  lemma {:induction false} ExclusionOnlyExcludes(subnets: seq<Subnet>, at: nat, exclusion: Subnet, p: Packet)
    requires at <= |subnets| && exclusion.exclude
    ensures Captured(subnets[..at] + [exclusion] + subnets[at..], p) <==>
      Captured(subnets, p)
      && (Covers(exclusion, p) ==>
            exists s :: Best(subnets, p, s) && Lighter(WeightOf(exclusion), WeightOf(s)))
  {
    var more := subnets[..at] + [exclusion] + subnets[at..];
    assert subnets == subnets[..at] + subnets[at..];
    assert forall s :: s in more <==> s == exclusion || s in subnets;
    hide Covers, WeightOf;
    if Captured(more, p) {
      var s :| Best(more, p, s) && !s.exclude;
      assert s in subnets && Best(subnets, p, s);
      assert WeightOf(s) != WeightOf(exclusion) by { WeightKeepsExclude(s, exclusion); }
      if Covers(exclusion, p) {
        assert !Lighter(WeightOf(s), WeightOf(exclusion));
        HeavierOrLighter(WeightOf(s), WeightOf(exclusion));
      }
    }
    if Captured(subnets, p)
       && (Covers(exclusion, p) ==> exists s :: Best(subnets, p, s) && Lighter(WeightOf(exclusion), WeightOf(s)))
    {
      var s :| Best(subnets, p, s) && !s.exclude;
      if Covers(exclusion, p) {
        var t :| Best(subnets, p, t) && Lighter(WeightOf(exclusion), WeightOf(t));
        BestAgree(subnets, p, s, t);
        LighterIsStrict(WeightOf(exclusion), WeightOf(t));
      }
      assert Best(more, p, s);
    }
  }

  lemma WeightKeepsExclude(s: Subnet, t: Subnet)
    ensures WeightOf(s) == WeightOf(t) ==> s.exclude == t.exclude && s.width == t.width
  {
  }

  lemma HeavierOrLighter(a: Weight, b: Weight)
    requires a != b
    ensures Lighter(a, b) || Lighter(b, a)
  {
  }
}
