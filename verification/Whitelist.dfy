/** The compiled chain against the declarative whitelist.
    daemon/internal/firewall/renderer.go:14-81 */
module Whitelist {
  import opened Options
  import opened Ports
  import opened Renderer
  import opened Rules
  import P = Prefixes

  lemma {:induction false} FirstMatchAppend(
    a: seq<ChainRule>, b: seq<ChainRule>, sets: Option<Sets>, live: set<P.Address>, packet: Packet)
    ensures FirstMatch(a + b, sets, live, packet) ==
      if FirstMatch(a, sets, live, packet).Some? then FirstMatch(a, sets, live, packet)
      else FirstMatch(b, sets, live, packet)
  {
    if a == [] {
      assert a + b == b;
    } else {
      assert (a + b)[1..] == a[1..] + b;
      FirstMatchAppend(a[1..], b, sets, live, packet);
    }
  }

  lemma FirstMatchOne(rule: ChainRule, sets: Option<Sets>, live: set<P.Address>, packet: Packet)
    ensures FirstMatch([rule], sets, live, packet) ==
      if RuleMatches(rule, sets, live, packet) then Some(rule.verdict) else None
  {
    assert [rule][1..] == [];
  }

  // ----- the accept rules of the business whitelist

  /** Rule i owns the packet's protocol and port and lists its source. */
  ghost predicate Admits(rules: seq<Rule>, i: int, packet: Packet)
    requires 0 <= i < |rules|
  {
    Owns(rules[i], packet) && P.Matches(rules[i].sources, packet.source)
  }

  lemma SourceRuleVerdict(
    sources: seq<P.Prefix>, family: P.Family, protocol: Protocol, ports: seq<PortRange>,
    sets: Option<Sets>, live: set<P.Address>, packet: Packet)
    ensures FirstMatch(SourceRule(P.SplitFamily(sources, family), protocol, ports), sets, live, packet) ==
      if packet.source.family == family && P.Matches(sources, packet.source) &&
         packet.transport.Port? && packet.transport.protocol == protocol && Covers(ports, packet.transport.port)
      then Some(Accept) else None
  {
    var split := P.SplitFamily(sources, family);
    P.SplitMatches(sources, family, packet.source);
    if |split| > 0 {
      var rule := ChainRule([SourceIn(split), DestPort(protocol, ports)], Accept);
      FirstMatchOne(rule, sets, live, packet);
      assert RuleMatches(rule, sets, live, packet) <==>
        MatchHolds(rule.matches[0], sets, live, packet) && MatchHolds(rule.matches[1], sets, live, packet);
    }
  }

  lemma {:induction false} RuleChainVerdict(
    rule: Rule, n: nat, sets: Option<Sets>, live: set<P.Address>, packet: Packet)
    requires n <= |rule.protocols|
    ensures FirstMatch(RuleChain(rule, n), sets, live, packet) ==
      if P.Matches(rule.sources, packet.source) && packet.transport.Port? &&
         packet.transport.protocol in rule.protocols[..n] && Covers(rule.ports, packet.transport.port)
      then Some(Accept) else None
  {
    hide FirstMatch, SourceRule, P.SplitFamily, P.Matches, Covers;
    if n == 0 {
      EmptyChain(sets, live, packet);
    } else {
      RuleChainVerdict(rule, n - 1, sets, live, packet);
      var protocol := rule.protocols[n - 1];
      var v4 := SourceRule(P.SplitFamily(rule.sources, P.IPv4), protocol, rule.ports);
      var v6 := SourceRule(P.SplitFamily(rule.sources, P.IPv6), protocol, rule.ports);
      SourceRuleVerdict(rule.sources, P.IPv4, protocol, rule.ports, sets, live, packet);
      SourceRuleVerdict(rule.sources, P.IPv6, protocol, rule.ports, sets, live, packet);
      FirstMatchAppend(RuleChain(rule, n - 1), v4, sets, live, packet);
      FirstMatchAppend(RuleChain(rule, n - 1) + v4, v6, sets, live, packet);
      assert rule.protocols[..n] == rule.protocols[..n - 1] + [protocol];
    }
  }

  lemma EmptyChain(sets: Option<Sets>, live: set<P.Address>, packet: Packet)
    ensures FirstMatch([], sets, live, packet) == None
  {
  }

  lemma AdmitsFront(rules: seq<Rule>, packet: Packet)
    requires rules != []
    ensures var n := |rules| - 1; forall i :: 0 <= i < n ==> (Admits(rules[..n], i, packet) <==> Admits(rules, i, packet))
  {
    hide Owns, P.Matches;
  }

  lemma AdmitsLast(rules: seq<Rule>, packet: Packet)
    requires rules != []
    ensures Admits(rules, |rules| - 1, packet) <==> Admits([rules[|rules| - 1]], 0, packet)
  {
    hide Owns, P.Matches;
  }

  /** An enabled rule's chain accepts exactly what the rule admits. */
  lemma AdmittedByRule(rule: Rule, sets: Option<Sets>, live: set<P.Address>, packet: Packet)
    ensures var verdict := FirstMatch(RuleChain(rule, |rule.protocols|), sets, live, packet);
      && (verdict == None || verdict == Some(Accept))
      && (rule.enabled ==> (verdict == Some(Accept) <==> Admits([rule], 0, packet)))
    ensures !rule.enabled ==> !Admits([rule], 0, packet)
  {
    hide FirstMatch, RuleChain, P.Matches, Covers;
    RuleChainVerdict(rule, |rule.protocols|, sets, live, packet);
    assert rule.protocols[..|rule.protocols|] == rule.protocols;
  }

  lemma {:induction false} BusinessVerdict(
    rules: seq<Rule>, sets: Option<Sets>, live: set<P.Address>, packet: Packet)
    ensures FirstMatch(BusinessChain(rules), sets, live, packet) ==
      if exists i :: 0 <= i < |rules| && Admits(rules, i, packet) then Some(Accept) else None
  {
    if rules == [] {
      EmptyChain(sets, live, packet);
    } else {
      hide FirstMatch, RuleChain, Admits;
      var n := |rules| - 1;
      BusinessVerdict(rules[..n], sets, live, packet);
      AdmitsFront(rules, packet);
      AdmittedByRule(rules[n], sets, live, packet);
      FirstMatchAppend(BusinessChain(rules[..n]), RuleChain(rules[n], |rules[n].protocols|), sets, live, packet);
      AdmitsLast(rules, packet);
    }
  }

  // ----- the final drops

  lemma {:induction false} RulePortsCover(rule: Rule, n: nat, protocol: Protocol, p: int)
    requires n <= |rule.protocols|
    ensures Covers(RulePorts(rule, n, protocol), p) <==> protocol in rule.protocols[..n] && Covers(rule.ports, p)
  {
    if n > 0 {
      RulePortsCover(rule, n - 1, protocol, p);
      assert rule.protocols[..n] == rule.protocols[..n - 1] + [rule.protocols[n - 1]];
      CoversAppend(RulePorts(rule, n - 1, protocol), if rule.protocols[n - 1] == protocol then rule.ports else [], p);
    }
  }

  /** The protected ranges of a protocol cover exactly the ports some enabled rule owns on it. */
  lemma {:induction false} ProtectedCovers(rules: seq<Rule>, protocol: Protocol, packet: Packet)
    requires packet.transport.Port? && packet.transport.protocol == protocol
    ensures Covers(Protected(rules, protocol), packet.transport.port) <==>
      exists i :: 0 <= i < |rules| && Owns(rules[i], packet)
  {
    if rules != [] {
      var front, rule := rules[..|rules| - 1], rules[|rules| - 1];
      ProtectedCovers(front, protocol, packet);
      RulePortsCover(rule, |rule.protocols|, protocol, packet.transport.port);
      assert rule.protocols[..|rule.protocols|] == rule.protocols;
      CoversAppend(Protected(front, protocol), RulePorts(rule, |rule.protocols|, protocol), packet.transport.port);
      assert forall i :: 0 <= i < |front| ==> front[i] == rules[i];
    }
  }

  lemma DropVerdict(ranges: seq<PortRange>, protocol: Protocol, sets: Option<Sets>, live: set<P.Address>, packet: Packet)
    ensures FirstMatch(DropChain(ranges, protocol), sets, live, packet) ==
      if packet.transport.Port? && packet.transport.protocol == protocol && Covers(Merged(ranges), packet.transport.port)
      then Some(Drop) else None
  {
    if |ranges| > 0 {
      var rule := ChainRule([DestPort(protocol, Merged(ranges))], Drop);
      FirstMatchOne(rule, sets, live, packet);
      assert RuleMatches(rule, sets, live, packet) <==> MatchHolds(rule.matches[0], sets, live, packet);
    }
  }

  // ----- the system part

  lemma DaemonRuleVerdict(rule: ChainRule, m: Match, daemonPort: int, sets: Option<Sets>, live: set<P.Address>, packet: Packet)
    requires rule.matches == [m, DestPort(Tcp, [PortRange(daemonPort, daemonPort)])]
    ensures FirstMatch([rule], sets, live, packet) ==
      if MatchHolds(m, sets, live, packet) && packet.transport == Port(Tcp, daemonPort) then Some(rule.verdict) else None
  {
    FirstMatchOne(rule, sets, live, packet);
    SinglePort(daemonPort, packet, sets, live);
    assert RuleMatches(rule, sets, live, packet) <==>
      MatchHolds(rule.matches[0], sets, live, packet) && MatchHolds(rule.matches[1], sets, live, packet);
  }

  lemma SinglePort(port: int, packet: Packet, sets: Option<Sets>, live: set<P.Address>)
    ensures MatchHolds(DestPort(Tcp, [PortRange(port, port)]), sets, live, packet) <==> packet.transport == Port(Tcp, port)
  {
    assert forall p :: Covers([PortRange(port, port)], p) <==> p == port by {
      assert [PortRange(port, port)][0] == PortRange(port, port);
      assert Ports.Contains(PortRange(port, port), port);
    }
  }

  /** What the head of the chain decides before any business rule is reached. */
  ghost function HeadVerdict(system: System, daemonPort: int, live: set<P.Address>, packet: Packet): Option<Verdict> {
    if packet.loopback then Some(Accept)
    else if !system.enabled then None
    else if packet.established then Some(Accept)
    else if packet.transport != Port(Tcp, daemonPort) then None
    else if P.Matches(system.controlSources, packet.source) || packet.source in live then Some(Accept)
    else Some(Drop)
  }

  ghost predicate SetsOf(system: System, sets: Option<Sets>) {
    system.enabled ==>
      && sets.Some?
      && sets.value.control4 == P.SplitFamily(system.controlSources, P.IPv4)
      && sets.value.control6 == P.SplitFamily(system.controlSources, P.IPv6)
  }

  lemma HeadChainVerdict(system: System, daemonPort: int, sets: Option<Sets>, live: set<P.Address>, packet: Packet)
    requires SetsOf(system, sets)
    ensures FirstMatch([ChainRule([Loopback], Accept)] + SystemChain(system, daemonPort), sets, live, packet) ==
      HeadVerdict(system, daemonPort, live, packet)
  {
    var lo := ChainRule([Loopback], Accept);
    FirstMatchAppend([lo], SystemChain(system, daemonPort), sets, live, packet);
    FirstMatchOne(lo, sets, live, packet);
    assert RuleMatches(lo, sets, live, packet) <==> MatchHolds(lo.matches[0], sets, live, packet);
    if system.enabled && !packet.loopback {
      SystemVerdict(system, daemonPort, sets, live, packet);
    }
  }

  lemma SystemVerdict(system: System, daemonPort: int, sets: Option<Sets>, live: set<P.Address>, packet: Packet)
    requires SetsOf(system, sets) && system.enabled && !packet.loopback
    ensures FirstMatch(SystemChain(system, daemonPort), sets, live, packet) == HeadVerdict(system, daemonPort, live, packet)
  {
    var chain := SystemChain(system, daemonPort);
    P.SplitMatches(system.controlSources, P.IPv4, packet.source);
    P.SplitMatches(system.controlSources, P.IPv6, packet.source);
    FirstMatchOne(chain[0], sets, live, packet);
    assert RuleMatches(chain[0], sets, live, packet) <==> MatchHolds(chain[0].matches[0], sets, live, packet);
    DaemonRuleVerdict(chain[1], SourceInSet(P.IPv4, Control), daemonPort, sets, live, packet);
    DaemonRuleVerdict(chain[2], SourceInSet(P.IPv6, Control), daemonPort, sets, live, packet);
    DaemonRuleVerdict(chain[3], SourceInSet(P.IPv4, DirectGrants), daemonPort, sets, live, packet);
    DaemonRuleVerdict(chain[4], SourceInSet(P.IPv6, DirectGrants), daemonPort, sets, live, packet);
    FirstMatchOne(chain[5], sets, live, packet);
    SinglePort(daemonPort, packet, sets, live);
    assert RuleMatches(chain[5], sets, live, packet) <==> MatchHolds(chain[5].matches[0], sets, live, packet);
    SixRules(chain, sets, live, packet);
  }

  /** The first match of a six-rule chain, rule by rule. */
  lemma SixRules(chain: seq<ChainRule>, sets: Option<Sets>, live: set<P.Address>, packet: Packet)
    requires |chain| == 6
    ensures var v := (i: int) requires 0 <= i < 6 => FirstMatch([chain[i]], sets, live, packet);
      FirstMatch(chain, sets, live, packet) ==
        if v(0).Some? then v(0) else if v(1).Some? then v(1) else if v(2).Some? then v(2)
        else if v(3).Some? then v(3) else if v(4).Some? then v(4) else v(5)
  {
    FirstMatchAppend([chain[0]], chain[1..], sets, live, packet);
    FirstMatchAppend([chain[1]], chain[2..], sets, live, packet);
    FirstMatchAppend([chain[2]], chain[3..], sets, live, packet);
    FirstMatchAppend([chain[3]], chain[4..], sets, live, packet);
    FirstMatchAppend([chain[4]], chain[5..], sets, live, packet);
    assert chain == [chain[0]] + chain[1..] && chain[1..] == [chain[1]] + chain[2..];
    assert chain[2..] == [chain[2]] + chain[3..] && chain[3..] == [chain[3]] + chain[4..];
    assert chain[4..] == [chain[4]] + chain[5..] && chain[5..] == [chain[5]];
  }

  // ----- the whole chain

  /** Some enabled rule owns the packet's protocol and port. */
  ghost predicate Owned(rules: seq<Rule>, packet: Packet) {
    exists i :: 0 <= i < |rules| && Owns(rules[i], packet)
  }

  ghost predicate Admitted(rules: seq<Rule>, packet: Packet) {
    exists i :: 0 <= i < |rules| && Admits(rules, i, packet)
  }

  /** The packet's port is in the merged drop rule of its protocol. */
  ghost predicate Dropped(rules: seq<Rule>, packet: Packet) {
    && packet.transport.Port?
    && Covers(Merged(Protected(rules, packet.transport.protocol)), packet.transport.port)
  }

  lemma ChainVerdict(policy: Policy, daemonPort: int, sets: Option<Sets>, live: set<P.Address>, packet: Packet)
    requires SetsOf(policy.system, sets)
    ensures FirstMatch(Chain(policy, daemonPort), sets, live, packet) ==
      var head := HeadVerdict(policy.system, daemonPort, live, packet);
      if head.Some? then head
      else if Admitted(policy.rules, packet) then Some(Accept)
      else if Dropped(policy.rules, packet) then Some(Drop)
      else None
  {
    var a := [ChainRule([Loopback], Accept)] + SystemChain(policy.system, daemonPort);
    var b := BusinessChain(policy.rules);
    var tcp, udp := Protected(policy.rules, Tcp), Protected(policy.rules, Udp);
    HeadChainVerdict(policy.system, daemonPort, sets, live, packet);
    BusinessVerdict(policy.rules, sets, live, packet);
    DropVerdict(tcp, Tcp, sets, live, packet);
    DropVerdict(udp, Udp, sets, live, packet);
    FirstMatchAppend(a, b, sets, live, packet);
    FirstMatchAppend(a + b, DropChain(tcp, Tcp), sets, live, packet);
    FirstMatchAppend(a + b + DropChain(tcp, Tcp), DropChain(udp, Udp), sets, live, packet);
  }

  ghost predicate AscendingProtected(rules: seq<Rule>) {
    Ascending(Protected(rules, Tcp)) && Ascending(Protected(rules, Udp))
  }

  /** The merged drop rule never reaches beyond the owned ports, in any rule order. */
  lemma DroppedIsOwned(rules: seq<Rule>, packet: Packet)
    requires Dropped(rules, packet)
    ensures Owned(rules, packet)
  {
    var protocol := packet.transport.protocol;
    MergeAddsNothing(Protected(rules, protocol), packet.transport.port);
    ProtectedCovers(rules, protocol, packet);
  }

  ghost predicate Rendered(policy: Policy, daemonPort: int, table: Option<Table>) {
    && (table.Some? <==> PolicyActive(policy))
    && (table.Some? ==> table.value.chain == Chain(policy, daemonPort) && SetsOf(policy.system, table.value.sets))
  }

  lemma CommonPortOverlaps(a: seq<PortRange>, b: seq<PortRange>, p: int)
    requires Covers(a, p) && Covers(b, p)
    ensures !PairwiseDisjoint(a + b)
  {
    var u :| 0 <= u < |a| && Ports.Contains(a[u], p);
    var v :| 0 <= v < |b| && Ports.Contains(b[v], p);
    assert (a + b)[u] == a[u] && (a + b)[|a| + v] == b[v];
    assert Overlap((a + b)[u], (a + b)[|a| + v]);
  }

  lemma OwnedRuleCovers(rule: Rule, packet: Packet)
    requires Owns(rule, packet)
    ensures Covers(RulePorts(rule, |rule.protocols|, packet.transport.protocol), packet.transport.port)
  {
    RulePortsCover(rule, |rule.protocols|, packet.transport.protocol, packet.transport.port);
    assert rule.protocols[..|rule.protocols|] == rule.protocols;
  }

  /** The enabled rule that owns a protocol and port is unique. */
  lemma {:induction false} OwnerIsUnique(rules: seq<Rule>, i: nat, j: nat, packet: Packet)
    requires i < j < |rules| && Owns(rules[i], packet) && Owns(rules[j], packet)
    ensures !PairwiseDisjoint(Protected(rules, packet.transport.protocol))
  {
    var protocol, n := packet.transport.protocol, |rules| - 1;
    var front := Protected(rules[..n], protocol);
    if j < n {
      OwnerIsUnique(rules[..n], i, j, packet);
      DisjointPrefix(front, Protected(rules, protocol));
    } else {
      ProtectedCovers(rules[..n], protocol, packet);
      assert Owns(rules[..n][i], packet);
      OwnedRuleCovers(rules[n], packet);
      CommonPortOverlaps(front, RulePorts(rules[n], |rules[n].protocols|, protocol), packet.transport.port);
    }
  }

  lemma DisjointPrefix(a: seq<PortRange>, b: seq<PortRange>)
    requires a <= b && !PairwiseDisjoint(a)
    ensures !PairwiseDisjoint(b)
  {
    var i, j :| 0 <= i < j < |a| && Overlap(a[i], a[j]);
    assert a[i] == b[i] && a[j] == b[j];
  }

  /** Whatever the rule order, a whitelisted packet is never dropped. */
  lemma WhitelistedIsAccepted(policy: Policy, daemonPort: int, table: Option<Table>, live: set<P.Address>, packet: Packet)
    requires Rendered(policy, daemonPort, table)
    requires Whitelisted(policy, daemonPort, live, packet)
    ensures Accepts(table, live, packet)
  {
    if table.Some? {
      ChainVerdict(policy, daemonPort, table.value.sets, live, packet);
      if Dropped(policy.rules, packet) { DroppedIsOwned(policy.rules, packet); }
      if i :| 0 <= i < |policy.rules| && Owns(policy.rules[i], packet) && P.Matches(policy.rules[i].sources, packet.source) {
        assert Admits(policy.rules, i, packet);
      }
    }
  }

  lemma OwnedPortIsDropped(policy: Policy, daemonPort: int, packet: Packet)
    requires ValidPolicy(policy, daemonPort) && AscendingProtected(policy.rules)
    requires Owned(policy.rules, packet)
    ensures Dropped(policy.rules, packet)
  {
    ProtectedCovers(policy.rules, packet.transport.protocol, packet);
    MergeLosesNothing(Protected(policy.rules, packet.transport.protocol), packet.transport.port);
  }

  /** With ascending protected ranges the chain accepts exactly the whitelisted packets. */
  lemma AcceptedIsWhitelisted(policy: Policy, daemonPort: int, table: Option<Table>, live: set<P.Address>, packet: Packet)
    requires Rendered(policy, daemonPort, table) && ValidPolicy(policy, daemonPort)
    requires AscendingProtected(policy.rules)
    requires Accepts(table, live, packet)
    ensures Whitelisted(policy, daemonPort, live, packet)
  {
    if table.None? {
      assert forall i :: 0 <= i < |policy.rules| ==> !policy.rules[i].enabled;
    } else {
      ChainVerdict(policy, daemonPort, table.value.sets, live, packet);
      if Owned(policy.rules, packet) { OwnedPortIsDropped(policy, daemonPort, packet); }
      if Admitted(policy.rules, packet) {
        var i :| 0 <= i < |policy.rules| && Admits(policy.rules, i, packet);
        assert Owns(policy.rules[i], packet);
      }
    }
  }

  // ----- and otherwise some unlisted packet slips through

  /** No acceptable source list contains the unspecified address. */
  lemma UnspecifiedIsNoSource(sources: seq<P.Prefix>, a: P.Address)
    requires NormalSources(sources) && IsUnspecified(a)
    ensures !P.Matches(sources, a)
  {
    forall i | 0 <= i < |sources| ensures !P.Contains(sources[i], a) {
      var p := sources[i];
      P.DivideRebuild(p.address.value, P.BlockSize(p));
      P.DivideUnique(0, P.BlockSize(p), 0, 0);
    }
  }

  lemma UnsortedPortIsLost(policy: Policy, daemonPort: int, protocol: Protocol) returns (p: int)
    requires ValidPolicy(policy, daemonPort) && !Ascending(Protected(policy.rules, protocol))
    ensures Covers(Protected(policy.rules, protocol), p) && !Covers(Merged(Protected(policy.rules, protocol)), p)
  {
    var s := Protected(policy.rules, protocol);
    forall i | 0 <= i < |policy.rules|
      ensures AcceptableInput(policy.rules[i].id, AsInput(policy.rules[i]), daemonPort)
    {
      NormalRuleIsAcceptable(policy.rules[i], daemonPort);
    }
    AcceptableRangesNonEmpty(policy.rules, daemonPort, protocol);
    MergeFaithfulIffAscending(s);
    p :| Covers(Merged(s), p) != Covers(s, p);
    if Covers(Merged(s), p) { MergeAddsNothing(s, p); }
  }

  lemma UnsortedPortSlipsThrough(policy: Policy, daemonPort: int, table: Option<Table>, protocol: Protocol)
    returns (packet: Packet)
    requires Rendered(policy, daemonPort, table) && ValidPolicy(policy, daemonPort)
    requires !Ascending(Protected(policy.rules, protocol))
    ensures Accepts(table, {}, packet) && !Whitelisted(policy, daemonPort, {}, packet)
  {
    hide Protected, ValidPolicy, Chain, FirstMatch, P.Matches, Ascending;
    var p := UnsortedPortIsLost(policy, daemonPort, protocol);
    packet := Packet(false, false, P.RawAddress(P.IPv4, 0), Port(protocol, p));
    ProtectedCovers(policy.rules, protocol, packet);
    OwnerRejects(policy, daemonPort, packet);
    if table.Some? {
      ChainVerdict(policy, daemonPort, table.value.sets, {}, packet);
    }
  }

  /** A packet from the unspecified address to an owned port is admitted by no rule, and the port is
      not the daemon's. */
  lemma OwnerRejects(policy: Policy, daemonPort: int, packet: Packet)
    requires ValidPolicy(policy, daemonPort) && Owned(policy.rules, packet) && IsUnspecified(packet.source)
    ensures packet.transport.Port? && packet.transport.port != daemonPort
    ensures !Admitted(policy.rules, packet)
    ensures forall k :: 0 <= k < |policy.rules| ==> !P.Matches(policy.rules[k].sources, packet.source)
  {
    forall k | 0 <= k < |policy.rules| ensures !P.Matches(policy.rules[k].sources, packet.source) {
      assert NormalRule(policy.rules[k], daemonPort);
      UnspecifiedIsNoSource(policy.rules[k].sources, packet.source);
    }
    var k :| 0 <= k < |policy.rules| && Owns(policy.rules[k], packet);
    assert NormalRule(policy.rules[k], daemonPort);
  }

  /** The rendered chain enforces the whitelist for every packet and every set of live grants
      exactly when each protocol's protected ranges, concatenated in rule order, are ascending. */
  lemma ChainIsWhitelistIffAscending(policy: Policy, daemonPort: int, table: Option<Table>)
    requires Rendered(policy, daemonPort, table) && ValidPolicy(policy, daemonPort)
    ensures (forall live, packet :: Accepts(table, live, packet) <==> Whitelisted(policy, daemonPort, live, packet))
      <==> AscendingProtected(policy.rules)
  {
    if AscendingProtected(policy.rules) {
      forall live, packet ensures Accepts(table, live, packet) <==> Whitelisted(policy, daemonPort, live, packet) {
        if Accepts(table, live, packet) { AcceptedIsWhitelisted(policy, daemonPort, table, live, packet); }
        if Whitelisted(policy, daemonPort, live, packet) {
          WhitelistedIsAccepted(policy, daemonPort, table, live, packet);
        }
      }
    } else {
      var packet := UnsortedPortSlipsThrough(
        policy, daemonPort, table, if Ascending(Protected(policy.rules, Tcp)) then Udp else Tcp);
    }
  }

  function TcpRule(id: string, port: int, host: P.Prefix): Rule {
    Rule(id, true, [Tcp], [PortRange(port, port)], [host], "")
  }

  /** Two rules created in descending port order: 20000, then 3000, both open to one host only. */
  function DescendingRules(host: P.Prefix): Policy {
    Policy([TcpRule("a", 20000, host), TcpRule("b", 3000, host)], System(false, [], 600))
  }

  lemma TcpRuleProtects(front: seq<Rule>, id: string, port: int, host: P.Prefix)
    ensures Protected(front + [TcpRule(id, port, host)], Tcp) == Protected(front, Tcp) + [PortRange(port, port)]
    ensures Protected(front + [TcpRule(id, port, host)], Udp) == Protected(front, Udp)
  {
    var rule := TcpRule(id, port, host);
    var rules := front + [rule];
    assert rules[..|rules| - 1] == front && rules[|rules| - 1] == rule;
    assert rule.protocols == [Tcp] && rule.protocols[0] == Tcp;
    assert RulePorts(rule, 0, Tcp) == [] && RulePorts(rule, 0, Udp) == [];
    assert RulePorts(rule, 1, Tcp) == rule.ports;
    assert RulePorts(rule, 1, Udp) == RulePorts(rule, 0, Udp);
  }

  lemma DescendingRulesProtect(host: P.Prefix)
    ensures Protected(DescendingRules(host).rules, Tcp) == [PortRange(20000, 20000), PortRange(3000, 3000)]
    ensures Protected(DescendingRules(host).rules, Udp) == []
  {
    TcpRuleProtects([], "a", 20000, host);
    TcpRuleProtects([TcpRule("a", 20000, host)], "b", 3000, host);
    assert [] + [TcpRule("a", 20000, host)] == [TcpRule("a", 20000, host)];
    assert DescendingRules(host).rules == [TcpRule("a", 20000, host)] + [TcpRule("b", 3000, host)];
  }

  lemma TcpRuleIsNormal(id: string, port: int, host: P.Prefix)
    requires NormalSources([host]) && |id| == 1 && !IsSpace(id[0]) && 1 <= port <= MAX_PORT && port != 18443
    ensures NormalRule(TcpRule(id, port, host), 18443)
  {
  }

  lemma DescendingRulesAreValid(host: P.Prefix)
    requires NormalSources([host])
    ensures ValidPolicy(DescendingRules(host), 18443)
  {
    hide NormalRule, Protected;
    DescendingRulesProtect(host);
    TcpRuleIsNormal("a", 20000, host);
    TcpRuleIsNormal("b", 3000, host);
  }

  /** The validated policy leaves port 3000 open to everyone. */
  lemma DescendingRulesLeavePortOpen(host: P.Prefix, packet: Packet)
    requires NormalSources([host])
    requires packet.transport == Port(Tcp, 3000)
    ensures FirstMatch(Chain(DescendingRules(host), 18443), None, {}, packet) != Some(Drop)
  {
    hide FirstMatch, Chain, Merged, Protected, TcpRule, NormalRule, NormalSources;
    DescendingRulesProtect(host);
    MergedOfTwo(PortRange(20000, 20000), PortRange(3000, 3000));
    assert !Ports.Contains(PortRange(20000, 20000), 3000);
    assert !Dropped(DescendingRules(host).rules, packet);
    ChainVerdict(DescendingRules(host), 18443, None, {}, packet);
  }

  /** A range below its predecessor is lost. */
  lemma MergedOfTwo(a: PortRange, b: PortRange)
    requires b.from <= a.to + 1 && b.to <= a.to
    ensures Merged([a, b]) == [a]
  {
    assert [a, b][..1] == [a] && [a][..0] == [];
    assert Merged([a]) == MergeStep(Merged([]), a) == [a];
    assert Merged([a, b]) == MergeStep(Merged([a]), b);
  }
}
