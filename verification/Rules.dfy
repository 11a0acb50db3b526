/** Normalisation and validation of whitelist rules and of the whole firewall state.
    daemon/internal/firewall/service.go:447-579 */
module Rules {
  import opened Sorting
  import opened Options
  import opened Ports
  import opened Renderer
  import P = Prefixes

  datatype Error =
    | InvalidState | InvalidSystem | LockoutRisk
    | InvalidRule | ProtectedPort | InvalidSource | RuleConflict

  datatype Result<T> = Ok(value: T) | Err(error: Error)

  /** A protocol name after trimming and lower-casing. */
  datatype ProtocolName = Known(protocol: Protocol) | Unknown

  /** A source string after trimming, as netip reads it. */
  datatype SourceInput = Blank | Host(address: P.Address) | Cidr(prefix: P.Prefix) | Malformed

  datatype RuleInput = RuleInput(
    enabled: bool, protocols: seq<ProtocolName>, ports: seq<PortRange>, sources: seq<SourceInput>, note: string)

  // ----- strings

  predicate IsSpace(c: char) {
    c == ' ' || '\t' <= c <= '\r' || c == '\U{85}' || c == '\U{A0}'
  }

  function TrimLeft(s: string): (r: string)
    ensures r == [] || !IsSpace(r[0])
    ensures |r| <= |s|
  {
    if s != [] && IsSpace(s[0]) then TrimLeft(s[1..]) else s
  }

  function TrimSpace(s: string): (r: string)
    ensures r == [] || (!IsSpace(r[0]) && !IsSpace(r[|r| - 1]))
    decreases |s|
  {
    var t := TrimLeft(s);
    if t != [] && IsSpace(t[|t| - 1]) then TrimSpace(t[..|t| - 1]) else t
  }

  // ----- protocols

  method NormalizeProtocols(values: seq<ProtocolName>) returns (result: seq<Protocol>)
    ensures result == CanonicalProtocols(Known(Tcp) in values, Known(Udp) in values)
  {
    var seen: set<Protocol> := {};
    for i := 0 to |values|
      invariant forall p :: p in seen <==> Known(p) in values[..i]
    {
      if values[i].Known? {
        seen := seen + {values[i].protocol};
      }
    }
    assert values[..|values|] == values;
    result := [];
    if Tcp in seen {
      result := result + [Tcp];
    }
    if Udp in seen {
      result := result + [Udp];
    }
  }

  function CanonicalProtocols(tcp: bool, udp: bool): (r: seq<Protocol>)
    ensures forall p :: p in r <==> if p.Tcp? then tcp else udp
  {
    (if tcp then [Tcp] else []) + (if udp then [Udp] else [])
  }

  // ----- sources

  predicate IsLoopback(a: P.Address) {
    if a.family.IPv4? then a.value / 0x100_0000 == 127 else a.value == 1
  }

  predicate IsUnspecified(a: P.Address) {
    a.value == 0
  }

  function SourcePrefix(input: SourceInput): P.Prefix
    requires input.Host? || input.Cidr?
  {
    match input
    case Host(address) => P.RawPrefix(address, P.Width(address.family))
    case Cidr(prefix) => P.Masked(prefix)
  }

  predicate UsableSource(input: SourceInput, rejectGlobal: bool) {
    match input
    case Blank => true
    case Malformed => false
    case _ =>
      var p := SourcePrefix(input);
      !IsLoopback(p.address) && !IsUnspecified(p.address) && !(rejectGlobal && p.bits == 0)
  }

  /** Sorted, without repetition, and exactly the prefixes the inputs name. */
  ghost predicate IsSourceList(values: seq<SourceInput>, result: seq<P.Prefix>) {
    && Sorted(result, P.PrefixLe)
    && (forall i, j :: 0 <= i < j < |result| ==> result[i] != result[j])
    && (forall p :: p in result <==>
         exists i :: 0 <= i < |values| && (values[i].Host? || values[i].Cidr?) && SourcePrefix(values[i]) == p)
  }

  method NormalizeSources(values: seq<SourceInput>, rejectGlobal: bool) returns (result: Result<seq<P.Prefix>>)
    ensures result.Ok? <==> forall i :: 0 <= i < |values| ==> UsableSource(values[i], rejectGlobal)
    ensures result.Err? ==> result.error == InvalidSource
    ensures result.Ok? ==> IsSourceList(values, result.value)
  {
    var found: seq<P.Prefix> := [];
    for i := 0 to |values|
      invariant forall j :: 0 <= j < i ==> UsableSource(values[j], rejectGlobal)
      invariant forall a, b :: 0 <= a < b < |found| ==> found[a] != found[b]
      invariant forall p :: p in found <==>
        exists j :: 0 <= j < i && (values[j].Host? || values[j].Cidr?) && SourcePrefix(values[j]) == p
    {
      if values[i].Blank? {
        continue;
      }
      if values[i].Malformed? {
        return Err(InvalidSource);
      }
      var prefix := SourcePrefix(values[i]);
      if IsLoopback(prefix.address) || IsUnspecified(prefix.address) {
        return Err(InvalidSource);
      }
      if rejectGlobal && prefix.bits == 0 {
        return Err(InvalidSource);
      }
      if prefix !in found {
        found := found + [prefix];
      }
    }
    SortKeepsDistinct(found);
    result := Ok(Sort(found, P.PrefixLe));
  }

  lemma SortKeepsDistinct(s: seq<P.Prefix>)
    requires forall i, j :: 0 <= i < j < |s| ==> s[i] != s[j]
    ensures Sorted(Sort(s, P.PrefixLe), P.PrefixLe)
    ensures forall p :: p in Sort(s, P.PrefixLe) <==> p in s
    ensures forall i, j :: 0 <= i < j < |s| && j < |Sort(s, P.PrefixLe)| ==> Sort(s, P.PrefixLe)[i] != Sort(s, P.PrefixLe)[j]
    ensures |Sort(s, P.PrefixLe)| == |s|
  {
    P.SortedPrefixes(s);
    P.PrefixOrderIsTotal();
    SortIsSortedPermutation(s, P.PrefixLe);
    var t := Sort(s, P.PrefixLe);
    assert |t| == |multiset(t)| == |multiset(s)| == |s|;
    forall i, j | 0 <= i < j < |t| ensures t[i] != t[j] {
      if t[i] == t[j] {
        TwoOccurrences(t, i, j);
        var u, v := TwoPositions(s, t[i]);
      }
    }
  }

  // ----- one rule

  /** What normalizeRule guarantees of its result. */
  ghost predicate NormalRule(rule: Rule, daemonPort: int) {
    && TrimSpace(rule.id) != ""
    && (rule.protocols == [Tcp] || rule.protocols == [Udp] || rule.protocols == [Tcp, Udp])
    && rule.ports != [] && Gapped(rule.ports)
    && (forall i :: 0 <= i < |rule.ports| ==> ValidRange(rule.ports[i]) && !Ports.Contains(rule.ports[i], daemonPort))
    && rule.sources != [] && NormalSources(rule.sources)
    && TrimSpace(rule.note) == rule.note && |rule.note| <= 300
  }

  ghost predicate NormalSources(sources: seq<P.Prefix>) {
    && Sorted(sources, P.PrefixLe)
    && (forall i, j :: 0 <= i < j < |sources| ==> sources[i] != sources[j])
    && (forall i :: 0 <= i < |sources| ==>
         P.IsMasked(sources[i]) && !IsLoopback(sources[i].address) && !IsUnspecified(sources[i].address))
  }

  ghost predicate AcceptableInput(id: string, input: RuleInput, daemonPort: int) {
    && TrimSpace(id) != ""
    && (Known(Tcp) in input.protocols || Known(Udp) in input.protocols)
    && input.ports != []
    && (forall i :: 0 <= i < |input.ports| ==> ValidRange(input.ports[i]) && !Ports.Contains(input.ports[i], daemonPort))
    && (forall i :: 0 <= i < |input.sources| ==> UsableSource(input.sources[i], true))
    && (exists i :: 0 <= i < |input.sources| && !input.sources[i].Blank?)
    && |TrimSpace(input.note)| <= 300
  }

  lemma NormalizedRangesStayInside(ports: seq<PortRange>, daemonPort: int)
    requires ports != []
    requires forall i :: 0 <= i < |ports| ==> ValidRange(ports[i]) && !Ports.Contains(ports[i], daemonPort)
    ensures var r := NormalizePorts(ports);
      r != [] && Gapped(r) && SameCoverage(r, ports) &&
      forall i :: 0 <= i < |r| ==> ValidRange(r[i]) && !Ports.Contains(r[i], daemonPort)
  {
    NormalizeKeepsCoverage(ports);
    var r := NormalizePorts(ports);
    assert Ports.Contains(ports[0], ports[0].from);
    assert Covers(ports, ports[0].from);
    forall i | 0 <= i < |r| ensures ValidRange(r[i]) && !Ports.Contains(r[i], daemonPort) {
      assert Ports.Contains(r[i], r[i].from) && Ports.Contains(r[i], r[i].to);
      assert Covers(r, r[i].from) && Covers(r, r[i].to);
      assert Covers(ports, r[i].from) && Covers(ports, r[i].to);
      assert !Covers(ports, daemonPort);
      assert !Covers(r, daemonPort);
    }
  }

  lemma SourceListIsNormal(values: seq<SourceInput>, result: seq<P.Prefix>)
    requires IsSourceList(values, result)
    requires forall i :: 0 <= i < |values| ==> UsableSource(values[i], false)
    ensures NormalSources(result)
    ensures result != [] <==> exists i :: 0 <= i < |values| && !values[i].Blank?
  {
    forall i | 0 <= i < |result|
      ensures P.IsMasked(result[i]) && !IsLoopback(result[i].address) && !IsUnspecified(result[i].address)
    {
      assert result[i] in result;
      var k :| 0 <= k < |values| && (values[k].Host? || values[k].Cidr?) && SourcePrefix(values[k]) == result[i];
      assert UsableSource(values[k], false);
      if values[k].Cidr? { P.MaskKeepsMembers(values[k].prefix, result[i].address); }
      if values[k].Host? { assert P.BlockSize(result[i]) == 1; }
    }
    if result != [] { assert result[0] in result; }
    if i :| 0 <= i < |values| && !values[i].Blank? {
      assert UsableSource(values[i], false);
      assert SourcePrefix(values[i]) in result;
    }
  }

  method NormalizeRule(id: string, input: RuleInput, daemonPort: int) returns (result: Result<Rule>)
    ensures result.Ok? <==> AcceptableInput(id, input, daemonPort)
    ensures result.Err? ==> result.error in {InvalidRule, ProtectedPort, InvalidSource}
    ensures result == Err(ProtectedPort) ==>
      exists i :: 0 <= i < |input.ports| && Ports.Contains(input.ports[i], daemonPort)
    ensures result.Ok? ==>
      && NormalRule(result.value, daemonPort)
      && result.value.id == id && result.value.enabled == input.enabled
      && result.value.protocols == CanonicalProtocols(Known(Tcp) in input.protocols, Known(Udp) in input.protocols)
      && result.value.ports == NormalizePorts(input.ports)
      && SameCoverage(result.value.ports, input.ports)
      && IsSourceList(input.sources, result.value.sources)
      && result.value.note == TrimSpace(input.note)
  {
    hide TrimSpace, Merged, SortPortRanges, IsSourceList, SourcePrefix, P.IsMasked, P.Masked, SameCoverage, NormalSources, Gapped;
    if TrimSpace(id) == "" {
      return Err(InvalidRule);
    }
    var protocols := NormalizeProtocols(input.protocols);
    assert protocols == [] || protocols == [Tcp] || protocols == [Udp] || protocols == [Tcp, Udp];
    if |protocols| == 0 {
      return Err(InvalidRule);
    }
    if |input.ports| == 0 {
      return Err(InvalidRule);
    }
    for i := 0 to |input.ports|
      invariant forall j :: 0 <= j < i ==> ValidRange(input.ports[j]) && !Ports.Contains(input.ports[j], daemonPort)
    {
      var port := input.ports[i];
      if port.from < 1 || port.from > MAX_PORT || port.to < port.from || port.to > MAX_PORT {
        return Err(InvalidRule);
      }
      if port.from <= daemonPort <= port.to {
        return Err(ProtectedPort);
      }
    }
    var ports := MergePortRanges(SortPortRanges(input.ports));
    NormalizedRangesStayInside(input.ports, daemonPort);
    var sources := NormalizeSources(input.sources, true);
    if sources.Err? {
      return Err(sources.error);
    }
    UsableWithoutGlobal(input.sources);
    SourceListIsNormal(input.sources, sources.value);
    if |sources.value| == 0 {
      return Err(InvalidRule);
    }
    var note := TrimSpace(input.note);
    if |note| > 300 {
      return Err(InvalidRule);
    }
    TrimIsIdempotent(input.note);
    result := Ok(Rule(id, input.enabled, protocols, ports, sources.value, note));
  }

  lemma UsableWithoutGlobal(values: seq<SourceInput>)
    requires forall i :: 0 <= i < |values| ==> UsableSource(values[i], true)
    ensures forall i :: 0 <= i < |values| ==> UsableSource(values[i], false)
  {
    forall i | 0 <= i < |values| ensures UsableSource(values[i], false) {
      assert UsableSource(values[i], true);
    }
  }

  lemma TrimIsIdempotent(s: string)
    ensures TrimSpace(TrimSpace(s)) == TrimSpace(s)
  {
  }

  /** The input under which a stored rule is checked again. */
  function AsInput(rule: Rule): RuleInput {
    RuleInput(
      rule.enabled, seq(|rule.protocols|, i requires 0 <= i < |rule.protocols| => Known(rule.protocols[i])),
      rule.ports, seq(|rule.sources|, i requires 0 <= i < |rule.sources| => Cidr(rule.sources[i])), rule.note)
  }

  lemma {:induction false} GappedIsMerged(s: seq<PortRange>)
    requires Gapped(s)
    ensures Merged(s) == s
  {
    if s != [] {
      var front, last := s[..|s| - 1], s[|s| - 1];
      GappedIsMerged(front);
      assert front == [] || last.from > front[|front| - 1].to + 1;
      assert s == front + [last];
    }
  }

  lemma GappedIsNormalized(s: seq<PortRange>)
    requires Gapped(s)
    ensures NormalizePorts(s) == s
  {
    SortOrderIsTotal();
    SortIsSortedPermutation(s, SortsBefore);
    SortedUnique(s, SortPortRanges(s), SortsBefore);
    GappedIsMerged(s);
  }

  lemma MaskedIsFixed(p: P.Prefix)
    requires P.IsMasked(p)
    ensures P.Masked(p) == p
  {
    assert P.Floor(p.address.value, P.BlockSize(p)) == p.address.value;
  }

  /** Normalisation is idempotent: a stored rule is an acceptable input, and normalising it again
      gives the same rule. */
  lemma NormalRuleIsFixed(rule: Rule, daemonPort: int, sources: seq<P.Prefix>)
    requires NormalRule(rule, daemonPort)
    requires IsSourceList(AsInput(rule).sources, sources)
    ensures NormalizePorts(AsInput(rule).ports) == rule.ports
    ensures CanonicalProtocols(Known(Tcp) in AsInput(rule).protocols, Known(Udp) in AsInput(rule).protocols)
         == rule.protocols
    ensures sources == rule.sources
    ensures TrimSpace(AsInput(rule).note) == rule.note
  {
    hide NormalizePorts, Ports.Gapped, P.IsMasked, P.Masked;
    GappedIsNormalized(rule.ports);
    KnownProtocols(rule);
    SourcesAreKept(rule, sources);
  }

  lemma KnownProtocols(rule: Rule)
    ensures forall p :: Known(p) in AsInput(rule).protocols <==> p in rule.protocols
  {
    var names := AsInput(rule).protocols;
    forall p | p in rule.protocols ensures Known(p) in names {
      var i :| 0 <= i < |rule.protocols| && rule.protocols[i] == p;
      assert names[i] == Known(p);
    }
  }

  lemma SourcesAreKept(rule: Rule, sources: seq<P.Prefix>)
    requires NormalSources(rule.sources) && IsSourceList(AsInput(rule).sources, sources)
    ensures sources == rule.sources
  {
    hide P.IsMasked, P.Masked;
    var inputs := AsInput(rule).sources;
    forall p ensures p in sources <==> p in rule.sources {
      if p in rule.sources {
        var i :| 0 <= i < |rule.sources| && rule.sources[i] == p;
        MaskedIsFixed(p);
        assert SourcePrefix(inputs[i]) == p;
      }
      if p in sources {
        var i :| 0 <= i < |inputs| && (inputs[i].Host? || inputs[i].Cidr?) && SourcePrefix(inputs[i]) == p;
        MaskedIsFixed(rule.sources[i]);
      }
    }
    P.SortedDistinctUnique(sources, rule.sources);
  }

  lemma NormalRuleIsAcceptable(rule: Rule, daemonPort: int)
    requires NormalRule(rule, daemonPort)
    ensures AcceptableInput(rule.id, AsInput(rule), daemonPort)
  {
    var input := AsInput(rule);
    assert input.protocols[0] == Known(rule.protocols[0]);
    forall i | 0 <= i < |input.sources| ensures UsableSource(input.sources[i], true) {
      var p := rule.sources[i];
      MaskedIsFixed(p);
      if p.bits == 0 { GlobalIsUnspecified(p); }
    }
    assert !input.sources[0].Blank?;
  }

  /** The whole address space as a source always has the unspecified base address, so the explicit
      check for it never decides. */
  lemma GlobalIsUnspecified(p: P.Prefix)
    requires P.IsMasked(p) && p.bits == 0
    ensures IsUnspecified(p.address)
  {
    P.DivideUnique(p.address.value, P.BlockSize(p), 0, p.address.value);
  }

  // ----- the whole state

  ghost predicate ValidPolicy(policy: Policy, daemonPort: int) {
    && (forall i :: 0 <= i < |policy.rules| ==> NormalRule(policy.rules[i], daemonPort))
    && (forall i, j :: 0 <= i < j < |policy.rules| ==> policy.rules[i].id != policy.rules[j].id)
    && PairwiseDisjoint(Protected(policy.rules, Tcp)) && PairwiseDisjoint(Protected(policy.rules, Udp))
    && 60 <= policy.system.grantTtlSeconds <= 3600
    && NormalSources(policy.system.controlSources)
    && (policy.system.enabled ==> policy.system.controlSources != [])
  }

  lemma {:induction false} RulePortsNonEmpty(rule: Rule, n: nat, protocol: Protocol)
    requires NonEmpty(rule.ports) && n <= |rule.protocols|
    ensures NonEmpty(RulePorts(rule, n, protocol))
  {
    if n > 0 { RulePortsNonEmpty(rule, n - 1, protocol); }
  }

  ghost predicate RulesAcceptable(rules: seq<Rule>, daemonPort: int) {
    && (forall i :: 0 <= i < |rules| ==> AcceptableInput(rules[i].id, AsInput(rules[i]), daemonPort))
    && (forall i, j :: 0 <= i < j < |rules| ==> rules[i].id != rules[j].id)
  }

  method CheckRule(ids: set<string>, rule: Rule, daemonPort: int) returns (error: Option<Error>)
    ensures error != Some(RuleConflict)
    ensures error.None? <==> rule.id !in ids && AcceptableInput(rule.id, AsInput(rule), daemonPort)
  {
    if rule.id == "" {
      return Some(InvalidRule);
    }
    if rule.id in ids {
      return Some(InvalidRule);
    }
    var checked := NormalizeRule(rule.id, AsInput(rule), daemonPort);
    error := if checked.Err? then Some(checked.error) else None;
  }

  ghost predicate IdsOf(ids: set<string>, rules: seq<Rule>) {
    forall id :: id in ids <==> exists j :: 0 <= j < |rules| && rules[j].id == id
  }

  lemma IdsSnoc(ids: set<string>, rules: seq<Rule>, i: nat)
    requires i < |rules| && IdsOf(ids, rules[..i])
    ensures IdsOf(ids + {rules[i].id}, rules[..i + 1])
  {
    var front, more := rules[..i], rules[..i + 1];
    assert more[i] == rules[i];
    forall id ensures id in ids + {rules[i].id} <==> exists j :: 0 <= j < |more| && more[j].id == id {
      if id in ids {
        var j :| 0 <= j < |front| && front[j].id == id;
        assert more[j].id == id;
      }
      if j :| 0 <= j < |more| && more[j].id == id && id != rules[i].id {
        assert front[j].id == id;
      }
    }
  }

  lemma AcceptableSnoc(ids: set<string>, rules: seq<Rule>, i: nat, daemonPort: int)
    requires i < |rules| && IdsOf(ids, rules[..i])
    ensures RulesAcceptable(rules[..i + 1], daemonPort) <==>
      && RulesAcceptable(rules[..i], daemonPort) && rules[i].id !in ids
      && AcceptableInput(rules[i].id, AsInput(rules[i]), daemonPort)
    ensures RulesAcceptable(rules, daemonPort) ==> RulesAcceptable(rules[..i + 1], daemonPort)
  {
    hide AcceptableInput, AsInput;
    var front, more := rules[..i], rules[..i + 1];
    assert forall j :: 0 <= j < i ==> more[j] == front[j];
    assert more[i] == rules[i];
    if RulesAcceptable(more, daemonPort) {
      assert RulesAcceptable(front, daemonPort) by {
        assert forall j :: 0 <= j < i ==> front[j] == more[j];
      }
    }
  }

  lemma NothingChecked(rules: seq<Rule>, daemonPort: int)
    ensures IdsOf({}, rules[..0]) && RulesAcceptable(rules[..0], daemonPort)
    ensures Protected(rules[..0], Tcp) == [] && Protected(rules[..0], Udp) == []
  {
  }

  lemma ProtectedSnoc(rules: seq<Rule>, i: nat, protocol: Protocol)
    requires i < |rules|
    ensures var front := Protected(rules[..i], protocol);
      Protected(rules[..i + 1], protocol) ==
        if rules[i].enabled then front + RulePorts(rules[i], |rules[i].protocols|, protocol) else front
  {
    hide RulePorts;
    assert rules[..i + 1][..i] == rules[..i];
  }

  method CheckRules(rules: seq<Rule>, daemonPort: int) returns (result: Result<(seq<PortRange>, seq<PortRange>)>)
    ensures result.Ok? <==> RulesAcceptable(rules, daemonPort)
    ensures result.Ok? ==> result.value == (Protected(rules, Tcp), Protected(rules, Udp))
    ensures result.Err? ==> result.error != RuleConflict
  {
    NothingChecked(rules, daemonPort);
    hide AcceptableInput, AsInput, RulesAcceptable, IdsOf, Protected, RulePorts;
    var tcp, udp := [], [];
    var ids: set<string> := {};
    for i := 0 to |rules|
      invariant IdsOf(ids, rules[..i]) && RulesAcceptable(rules[..i], daemonPort)
      invariant tcp == Protected(rules[..i], Tcp) && udp == Protected(rules[..i], Udp)
    {
      var rule := rules[i];
      ProtectedSnoc(rules, i, Tcp);
      ProtectedSnoc(rules, i, Udp);
      var error := CheckRule(ids, rule, daemonPort);
      AcceptableSnoc(ids, rules, i, daemonPort);
      IdsSnoc(ids, rules, i);
      if error.Some? {
        return Err(error.value);
      }
      ids := ids + {rule.id};
      if !rule.enabled {
        continue;
      }
      var _, ruleTcp, ruleUdp := RenderRule(rule);
      tcp, udp := tcp + ruleTcp, udp + ruleUdp;
    }
    assert rules[..|rules|] == rules;
    result := Ok((tcp, udp));
  }

  lemma {:induction false} AcceptableRangesNonEmpty(rules: seq<Rule>, daemonPort: int, protocol: Protocol)
    requires forall i :: 0 <= i < |rules| ==> AcceptableInput(rules[i].id, AsInput(rules[i]), daemonPort)
    ensures NonEmpty(Protected(rules, protocol))
  {
    if rules != [] {
      AcceptableRangesNonEmpty(rules[..|rules| - 1], daemonPort, protocol);
      var rule := rules[|rules| - 1];
      assert AcceptableInput(rule.id, AsInput(rule), daemonPort);
      RulePortsNonEmpty(rule, |rule.protocols|, protocol);
    }
  }

  ghost predicate SystemAcceptable(system: System) {
    && 60 <= system.grantTtlSeconds <= 3600
    && (forall i :: 0 <= i < |system.controlSources| ==> UsableSource(Cidr(system.controlSources[i]), false))
    && (system.enabled ==> system.controlSources != [])
  }

  const SCHEMA_VERSION := 1

  /** Accepts exactly the states whose rules and system settings are acceptable and in which no two
      ranges of enabled rules on one protocol share a port. */
  method ValidateState(schemaVersion: int, revision: int, policy: Policy, daemonPort: int) returns (error: Option<Error>)
    ensures error.None? <==>
      && schemaVersion == SCHEMA_VERSION && revision >= 0
      && SystemAcceptable(policy.system)
      && RulesAcceptable(policy.rules, daemonPort)
      && PairwiseDisjoint(Protected(policy.rules, Tcp)) && PairwiseDisjoint(Protected(policy.rules, Udp))
    ensures error == Some(RuleConflict) ==>
      !(PairwiseDisjoint(Protected(policy.rules, Tcp)) && PairwiseDisjoint(Protected(policy.rules, Udp)))
  {
    hide AcceptableInput, Protected, PairwiseDisjoint, UsableSource, P.Masked, IsSourceList, NonEmpty;
    if schemaVersion != SCHEMA_VERSION || revision < 0 {
      return Some(InvalidState);
    }
    if policy.system.grantTtlSeconds < 60 || policy.system.grantTtlSeconds > 3600 {
      return Some(InvalidSystem);
    }
    var inputs := seq(|policy.system.controlSources|,
      i requires 0 <= i < |policy.system.controlSources| => Cidr(policy.system.controlSources[i]));
    var controls := NormalizeSources(inputs, false);
    assert (forall i :: 0 <= i < |inputs| ==> UsableSource(inputs[i], false)) ==>
      forall i :: 0 <= i < |policy.system.controlSources| ==> UsableSource(Cidr(policy.system.controlSources[i]), false) by {
      assert forall i :: 0 <= i < |policy.system.controlSources| ==> inputs[i] == Cidr(policy.system.controlSources[i]);
    }
    if controls.Err? {
      return Some(controls.error);
    }
    SourceListIsNormal(inputs, controls.value);
    assert policy.system.controlSources != [] ==> inputs[0] == Cidr(policy.system.controlSources[0]);
    if policy.system.enabled && |controls.value| == 0 {
      return Some(LockoutRisk);
    }
    var ranges := CheckRules(policy.rules, daemonPort);
    if ranges.Err? {
      return Some(ranges.error);
    }
    AcceptableRangesNonEmpty(policy.rules, daemonPort, Tcp);
    AcceptableRangesNonEmpty(policy.rules, daemonPort, Udp);
    var tcpConflict := AdjacentConflict(ranges.value.0);
    if tcpConflict {
      return Some(RuleConflict);
    }
    var udpConflict := AdjacentConflict(ranges.value.1);
    if udpConflict {
      return Some(RuleConflict);
    }
    return None;
  }
}
