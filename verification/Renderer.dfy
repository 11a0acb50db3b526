/** The firewall rule compiler: from whitelist rules to a first-match nftables chain, and what
    the chain means for a packet. The script is kept as a tree; its textual layout is not modelled.
    daemon/internal/firewall/renderer.go:14-114, 160-197 */
module Renderer {
  import opened Options
  import opened Ports
  import P = Prefixes

  datatype Protocol = Tcp | Udp

  datatype Rule = Rule(
    id: string, enabled: bool, protocols: seq<Protocol>, ports: seq<PortRange>,
    sources: seq<P.Prefix>, note: string)

  datatype System = System(enabled: bool, controlSources: seq<P.Prefix>, grantTtlSeconds: int)

  /** What a persisted state says about traffic. */
  datatype Policy = Policy(rules: seq<Rule>, system: System)

  /** expiresAt is an instant in nanoseconds. */
  datatype Grant = Grant(source: P.Address, sessionID: string, ticketID: string, expiresAt: int)

  type GrantKey = (P.Address, string, string)

  // ----- the rendered script

  datatype Verdict = Accept | Drop

  datatype SetName = Control | DirectGrants

  datatype Match =
    | Loopback
    | Established
    | SourceInSet(family: P.Family, name: SetName)
    | SourceIn(sources: seq<P.Prefix>)
    | DestPort(protocol: Protocol, ports: seq<PortRange>)

  datatype ChainRule = ChainRule(matches: seq<Match>, verdict: Verdict)

  /** The control sets, and for the grant set of each family its initial elements with their
      timeouts in seconds. */
  datatype Sets = Sets(
    control4: seq<P.Prefix>, control6: seq<P.Prefix>,
    grants4: map<P.Address, nat>, grants6: map<P.Address, nat>)

  datatype Table = Table(sets: Option<Sets>, chain: seq<ChainRule>)

  datatype Script = Script(deleteTable: bool, table: Option<Table>)

  // ----- meaning of a chain

  datatype Transport = Port(protocol: Protocol, port: int) | OtherTransport

  datatype Packet = Packet(loopback: bool, established: bool, source: P.Address, transport: Transport)

  ghost predicate MatchHolds(m: Match, sets: Option<Sets>, live: set<P.Address>, packet: Packet) {
    match m
    case Loopback => packet.loopback
    case Established => packet.established
    case SourceInSet(family, name) =>
      && packet.source.family == family
      && sets.Some?
      && (match name
          case DirectGrants => packet.source in live
          case Control =>
            P.Matches(if family.IPv4? then sets.value.control4 else sets.value.control6, packet.source))
    case SourceIn(sources) => P.Matches(sources, packet.source)
    case DestPort(protocol, ports) =>
      packet.transport.Port? && packet.transport.protocol == protocol && Covers(ports, packet.transport.port)
  }

  ghost predicate RuleMatches(rule: ChainRule, sets: Option<Sets>, live: set<P.Address>, packet: Packet) {
    forall i :: 0 <= i < |rule.matches| ==> MatchHolds(rule.matches[i], sets, live, packet)
  }

  /** The verdict of the first matching rule, if any. */
  ghost function FirstMatch(chain: seq<ChainRule>, sets: Option<Sets>, live: set<P.Address>, packet: Packet)
    : Option<Verdict>
  {
    if chain == [] then None
    else if RuleMatches(chain[0], sets, live, packet) then Some(chain[0].verdict)
    else FirstMatch(chain[1..], sets, live, packet)
  }

  /** The table's input chain has policy accept; without a table everything is accepted. */
  ghost predicate Accepts(table: Option<Table>, live: set<P.Address>, packet: Packet) {
    table.None? ||
    FirstMatch(table.value.chain, table.value.sets, live, packet) != Some(Drop)
  }

  // ----- the declarative whitelist

  ghost predicate Owns(rule: Rule, packet: Packet) {
    && rule.enabled
    && packet.transport.Port?
    && packet.transport.protocol in rule.protocols
    && Covers(rule.ports, packet.transport.port)
  }

  ghost predicate Whitelisted(policy: Policy, daemonPort: int, live: set<P.Address>, packet: Packet) {
    if packet.loopback then true
    else if policy.system.enabled && packet.established then true
    else if policy.system.enabled && packet.transport == Port(Tcp, daemonPort) then
      P.Matches(policy.system.controlSources, packet.source) || packet.source in live
    else
      (exists i :: 0 <= i < |policy.rules| && Owns(policy.rules[i], packet)) ==>
      (exists i :: 0 <= i < |policy.rules| && Owns(policy.rules[i], packet) &&
        P.Matches(policy.rules[i].sources, packet.source))
  }

  // ----- rendering

  predicate PolicyActive(policy: Policy) {
    policy.system.enabled || exists i :: 0 <= i < |policy.rules| && policy.rules[i].enabled
  }

  method StateActive(policy: Policy) returns (active: bool)
    ensures active == PolicyActive(policy)
  {
    if policy.system.enabled {
      return true;
    }
    for i := 0 to |policy.rules|
      invariant forall j :: 0 <= j < i ==> !policy.rules[j].enabled
    {
      if policy.rules[i].enabled {
        return true;
      }
    }
    return false;
  }

  const SECOND := 1_000_000_000

  /** Whole seconds, rounded up, at least one. */
  function FormatDuration(value: int): (seconds: nat)
    ensures value > 0 ==> (seconds - 1) * SECOND < value <= seconds * SECOND
    ensures value <= 0 ==> seconds == 1
  {
    if value <= 0 then 1 else (value + SECOND - 1) / SECOND
  }

  /** The longest remaining life of an unexpired grant of an address. */
  ghost predicate IsRemaining(grants: map<GrantKey, Grant>, now: int, a: P.Address, duration: int) {
    && (exists k :: k in grants && grants[k].source == a && grants[k].expiresAt - now == duration)
    && (forall k :: k in grants && grants[k].source == a ==> grants[k].expiresAt - now <= duration)
    && duration > 0
  }

  ghost predicate IsRemainingMap(grants: map<GrantKey, Grant>, now: int, remaining: map<P.Address, int>) {
    && (forall a :: a in remaining ==> IsRemaining(grants, now, a, remaining[a]))
    && (forall k :: k in grants && grants[k].expiresAt > now ==> grants[k].source in remaining)
  }

  /** The elements of one family's grant set: the addresses with an unexpired grant, each with the
      rounded remaining life of its longest one. */
  ghost predicate IsGrantElements(grants: map<GrantKey, Grant>, now: int, family: P.Family, elements: map<P.Address, nat>) {
    exists remaining: map<P.Address, int> ::
      && IsRemainingMap(grants, now, remaining)
      && elements == map a | a in remaining && a.family == family :: FormatDuration(remaining[a])
  }

  ghost predicate Accounted(grants: map<GrantKey, Grant>, now: int, k: GrantKey, remaining: map<P.Address, int>)
    requires k in grants
  {
    grants[k].expiresAt > now ==>
      grants[k].source in remaining && grants[k].expiresAt - now <= remaining[grants[k].source]
  }

  ghost predicate Witnessed(grants: map<GrantKey, Grant>, now: int, a: P.Address, duration: int) {
    duration > 0 && exists k :: k in grants && grants[k].source == a && grants[k].expiresAt - now == duration
  }

  method RemainingByAddress(grants: map<GrantKey, Grant>, now: int) returns (remaining: map<P.Address, int>)
    ensures IsRemainingMap(grants, now, remaining)
  {
    remaining := map[];
    var todo := grants.Keys;
    while todo != {}
      invariant todo <= grants.Keys
      invariant forall a :: a in remaining ==> Witnessed(grants, now, a, remaining[a])
      invariant forall k :: k in grants && k !in todo ==> Accounted(grants, now, k, remaining)
    {
      var key :| key in todo;
      todo := todo - {key};
      var grant := grants[key];
      if grant.expiresAt <= now {
        continue;
      }
      var duration := grant.expiresAt - now;
      if grant.source !in remaining || duration > remaining[grant.source] {
        assert Witnessed(grants, now, grant.source, duration);
        remaining := remaining[grant.source := duration];
      }
    }
    forall a | a in remaining ensures IsRemaining(grants, now, a, remaining[a]) {
      assert Witnessed(grants, now, a, remaining[a]);
      forall k | k in grants && grants[k].source == a ensures grants[k].expiresAt - now <= remaining[a] {
        assert Accounted(grants, now, k, remaining);
      }
    }
    forall k | k in grants && grants[k].expiresAt > now ensures grants[k].source in remaining {
      assert Accounted(grants, now, k, remaining);
    }
  }

  method ActiveGrantElements(grants: map<GrantKey, Grant>, now: int)
    returns (elements4: map<P.Address, nat>, elements6: map<P.Address, nat>)
    ensures IsGrantElements(grants, now, P.IPv4, elements4)
    ensures IsGrantElements(grants, now, P.IPv6, elements6)
  {
    hide IsRemainingMap;
    var remaining := RemainingByAddress(grants, now);
    elements4 := map a | a in remaining && a.family == P.IPv4 :: FormatDuration(remaining[a]);
    elements6 := map a | a in remaining && a.family == P.IPv6 :: FormatDuration(remaining[a]);
  }

  function SystemChain(system: System, daemonPort: int): seq<ChainRule> {
    if !system.enabled then [] else
      var daemon := DestPort(Tcp, [PortRange(daemonPort, daemonPort)]);
      [ ChainRule([Established], Accept),
        ChainRule([SourceInSet(P.IPv4, Control), daemon], Accept),
        ChainRule([SourceInSet(P.IPv6, Control), daemon], Accept),
        ChainRule([SourceInSet(P.IPv4, DirectGrants), daemon], Accept),
        ChainRule([SourceInSet(P.IPv6, DirectGrants), daemon], Accept),
        ChainRule([daemon], Drop) ]
  }

  function SourceRule(sources: seq<P.Prefix>, protocol: Protocol, ports: seq<PortRange>): seq<ChainRule> {
    if |sources| > 0 then [ChainRule([SourceIn(sources), DestPort(protocol, ports)], Accept)] else []
  }

  /** The accept rules of a rule's first n protocols. */
  function RuleChain(rule: Rule, n: nat): seq<ChainRule>
    requires n <= |rule.protocols|
  {
    if n == 0 then [] else
      RuleChain(rule, n - 1)
      + SourceRule(P.SplitFamily(rule.sources, P.IPv4), rule.protocols[n - 1], rule.ports)
      + SourceRule(P.SplitFamily(rule.sources, P.IPv6), rule.protocols[n - 1], rule.ports)
  }

  function BusinessChain(rules: seq<Rule>): seq<ChainRule> {
    if rules == [] then [] else
      var front, rule := BusinessChain(rules[..|rules| - 1]), rules[|rules| - 1];
      if rule.enabled then front + RuleChain(rule, |rule.protocols|) else front
  }

  /** A rule's ranges, once for each of its first n protocols equal to the given one. */
  function RulePorts(rule: Rule, n: nat, protocol: Protocol): seq<PortRange>
    requires n <= |rule.protocols|
  {
    if n == 0 then [] else
      RulePorts(rule, n - 1, protocol) + if rule.protocols[n - 1] == protocol then rule.ports else []
  }

  /** The ranges of the enabled rules on a protocol, concatenated in rule order. */
  function Protected(rules: seq<Rule>, protocol: Protocol): seq<PortRange> {
    if rules == [] then [] else
      var front, rule := Protected(rules[..|rules| - 1], protocol), rules[|rules| - 1];
      if rule.enabled then front + RulePorts(rule, |rule.protocols|, protocol) else front
  }

  function DropChain(ranges: seq<PortRange>, protocol: Protocol): seq<ChainRule> {
    if |ranges| == 0 then [] else [ChainRule([DestPort(protocol, Merged(ranges))], Drop)]
  }

  function Chain(policy: Policy, daemonPort: int): seq<ChainRule> {
    [ChainRule([Loopback], Accept)]
    + SystemChain(policy.system, daemonPort)
    + BusinessChain(policy.rules)
    + DropChain(Protected(policy.rules, Tcp), Tcp)
    + DropChain(Protected(policy.rules, Udp), Udp)
  }

  /** script is a rendering of the policy at the instant now. */
  ghost predicate IsRendering(policy: Policy, grants: map<GrantKey, Grant>, now: int, daemonPort: int,
                              tablePresent: bool, script: Script)
  {
    && script.deleteTable == tablePresent
    && (script.table.Some? <==> PolicyActive(policy))
    && (script.table.Some? ==> IsRenderedTable(policy, grants, now, daemonPort, script.table.value))
  }

  ghost predicate IsRenderedTable(policy: Policy, grants: map<GrantKey, Grant>, now: int, daemonPort: int, table: Table) {
    && table.chain == Chain(policy, daemonPort)
    && (table.sets.Some? <==> policy.system.enabled)
    && (table.sets.Some? ==>
         && table.sets.value.control4 == P.SplitFamily(policy.system.controlSources, P.IPv4)
         && table.sets.value.control6 == P.SplitFamily(policy.system.controlSources, P.IPv6)
         && IsGrantElements(grants, now, P.IPv4, table.sets.value.grants4)
         && IsGrantElements(grants, now, P.IPv6, table.sets.value.grants6))
  }

  method RenderRule(rule: Rule) returns (accepts: seq<ChainRule>, tcp: seq<PortRange>, udp: seq<PortRange>)
    ensures accepts == RuleChain(rule, |rule.protocols|)
    ensures tcp == RulePorts(rule, |rule.protocols|, Tcp)
    ensures udp == RulePorts(rule, |rule.protocols|, Udp)
  {
    accepts, tcp, udp := [], [], [];
    var sources4, sources6 := P.SplitPrefixes(rule.sources);
    for j := 0 to |rule.protocols|
      invariant accepts == RuleChain(rule, j)
      invariant tcp == RulePorts(rule, j, Tcp) && udp == RulePorts(rule, j, Udp)
    {
      var protocol := rule.protocols[j];
      accepts := accepts + SourceRule(sources4, protocol, rule.ports);
      accepts := accepts + SourceRule(sources6, protocol, rule.ports);
      if protocol == Tcp {
        tcp := tcp + rule.ports;
      } else {
        udp := udp + rule.ports;
      }
    }
  }

  method RenderRules(rules: seq<Rule>) returns (accepts: seq<ChainRule>, tcp: seq<PortRange>, udp: seq<PortRange>)
    ensures accepts == BusinessChain(rules)
    ensures tcp == Protected(rules, Tcp) && udp == Protected(rules, Udp)
  {
    accepts, tcp, udp := [], [], [];
    for i := 0 to |rules|
      invariant accepts == BusinessChain(rules[..i])
      invariant tcp == Protected(rules[..i], Tcp) && udp == Protected(rules[..i], Udp)
    {
      assert rules[..i + 1][..i] == rules[..i];
      if !rules[i].enabled {
        continue;
      }
      var ruleAccepts, ruleTcp, ruleUdp := RenderRule(rules[i]);
      accepts, tcp, udp := accepts + ruleAccepts, tcp + ruleTcp, udp + ruleUdp;
    }
    assert rules[..|rules|] == rules;
  }

  method RenderScript(policy: Policy, grants: map<GrantKey, Grant>, now: int, daemonPort: int, tablePresent: bool)
    returns (script: Script)
    ensures IsRendering(policy, grants, now, daemonPort, tablePresent, script)
  {
    hide Merged, Protected, BusinessChain, SystemChain, P.SplitFamily, IsGrantElements;
    var active := StateActive(policy);
    if !active {
      return Script(tablePresent, None);
    }
    var controls4, controls6 := P.SplitPrefixes(policy.system.controlSources);
    var grants4, grants6 := ActiveGrantElements(grants, now);
    var sets := if policy.system.enabled then Some(Sets(controls4, controls6, grants4, grants6)) else None;

    var output := [ChainRule([Loopback], Accept)];
    output := output + SystemChain(policy.system, daemonPort);
    var accepts, protectedTcp, protectedUdp := RenderRules(policy.rules);
    output := output + accepts;
    if |protectedTcp| > 0 {
      var ports := MergePortRanges(protectedTcp);
      output := output + [ChainRule([DestPort(Tcp, ports)], Drop)];
    }
    if |protectedUdp| > 0 {
      var ports := MergePortRanges(protectedUdp);
      output := output + [ChainRule([DestPort(Udp, ports)], Drop)];
    }
    script := Script(tablePresent, Some(Table(sets, output)));
  }
}
