/** What it means for a policy to be free of conflicts: each port of a protocol has at most one enabled
    rule. daemon/internal/firewall/service.go:436-491 */
module Conflicts {
  import opened Ports
  import opened Renderer
  import R = Rules

  ghost predicate OwnsPort(rule: Rule, protocol: Protocol, p: int) {
    rule.enabled && protocol in rule.protocols && Covers(rule.ports, p)
  }

  ghost predicate MeetOn(a: Rule, b: Rule, protocol: Protocol) {
    exists p :: OwnsPort(a, protocol, p) && OwnsPort(b, protocol, p)
  }

  ghost predicate Meet(a: Rule, b: Rule) {
    exists protocol :: MeetOn(a, b, protocol)
  }

  ghost predicate NoneMeetOn(rules: seq<Rule>, protocol: Protocol) {
    forall i, j :: 0 <= i < j < |rules| ==> !MeetOn(rules[i], rules[j], protocol)
  }

  ghost predicate NoneMeet(rules: seq<Rule>) {
    forall i, j :: 0 <= i < j < |rules| ==> !Meet(rules[i], rules[j])
  }

  lemma DisjointAppend(a: seq<PortRange>, b: seq<PortRange>)
    ensures PairwiseDisjoint(a + b) <==>
      PairwiseDisjoint(a) && PairwiseDisjoint(b) && forall i, j :: 0 <= i < |a| && 0 <= j < |b| ==> !Overlap(a[i], b[j])
  {
    var s := a + b;
    if PairwiseDisjoint(s) {
      forall i, j | 0 <= i < j < |a| ensures !Overlap(a[i], a[j]) {
        assert s[i] == a[i] && s[j] == a[j];
      }
      forall i, j | 0 <= i < j < |b| ensures !Overlap(b[i], b[j]) {
        assert s[|a| + i] == b[i] && s[|a| + j] == b[j];
      }
      forall i, j | 0 <= i < |a| && 0 <= j < |b| ensures !Overlap(a[i], b[j]) {
        assert s[i] == a[i] && s[|a| + j] == b[j];
      }
    }
  }

  /** Of non-empty ranges, two overlap exactly if they have a port in common. */
  lemma CommonPort(a: seq<PortRange>, b: seq<PortRange>)
    requires NonEmpty(a) && NonEmpty(b)
    ensures (forall i, j :: 0 <= i < |a| && 0 <= j < |b| ==> !Overlap(a[i], b[j])) <==>
      !exists p :: Covers(a, p) && Covers(b, p)
  {
    forall i, j | 0 <= i < |a| && 0 <= j < |b| && Overlap(a[i], b[j]) ensures exists p :: Covers(a, p) && Covers(b, p) {
      var p := if a[i].from < b[j].from then b[j].from else a[i].from;
      assert Contains(a[i], p) && Contains(b[j], p);
      assert Covers(a, p) && Covers(b, p);
    }
    forall p | Covers(a, p) && Covers(b, p)
      ensures exists i, j :: 0 <= i < |a| && 0 <= j < |b| && Overlap(a[i], b[j])
    {
      var i :| 0 <= i < |a| && Contains(a[i], p);
      var j :| 0 <= j < |b| && Contains(b[j], p);
      assert Overlap(a[i], b[j]);
    }
  }

  /** The ranges of one normal rule on a protocol. */
  lemma OwnRanges(rule: Rule, protocol: Protocol, daemonPort: int)
    requires R.NormalRule(rule, daemonPort)
    ensures var own := RulePorts(rule, |rule.protocols|, protocol);
      && NonEmpty(own) && PairwiseDisjoint(own)
      && forall p :: Covers(own, p) <==> protocol in rule.protocols && Covers(rule.ports, p)
  {
    hide RulePorts;
    RangesAreOwn(rule, protocol, daemonPort);
  }

  lemma RangesAreOwn(rule: Rule, protocol: Protocol, daemonPort: int)
    requires R.NormalRule(rule, daemonPort)
    ensures RulePorts(rule, |rule.protocols|, protocol) == if protocol in rule.protocols then rule.ports else []
  {
    var n := |rule.protocols|;
    assert RulePorts(rule, 0, protocol) == [];
    assert RulePorts(rule, 1, protocol) == if rule.protocols[0] == protocol then rule.ports else [];
    if n == 2 { assert RulePorts(rule, 2, protocol) == RulePorts(rule, 1, protocol) + if rule.protocols[1] == protocol then rule.ports else []; }
  }

  lemma {:induction false} ProtectedOwned(rules: seq<Rule>, protocol: Protocol, daemonPort: int)
    requires forall i :: 0 <= i < |rules| ==> R.NormalRule(rules[i], daemonPort)
    ensures NonEmpty(Protected(rules, protocol))
    ensures forall p :: Covers(Protected(rules, protocol), p) <==> exists i :: 0 <= i < |rules| && OwnsPort(rules[i], protocol, p)
  {
    hide R.NormalRule, RulePorts;
    if rules != [] {
      var n := |rules| - 1;
      var front := rules[..n];
      var before, own := Protected(front, protocol), RulePorts(rules[n], |rules[n].protocols|, protocol);
      ProtectedOwned(front, protocol, daemonPort);
      OwnRanges(rules[n], protocol, daemonPort);
      forall p
        ensures Covers(Protected(rules, protocol), p) <==> exists i :: 0 <= i < |rules| && OwnsPort(rules[i], protocol, p)
      {
        CoversAppend(before, own, p);
        OwnedFront(rules, protocol, p);
      }
    }
  }

  lemma OwnedFront(rules: seq<Rule>, protocol: Protocol, p: int)
    requires rules != []
    ensures var n := |rules| - 1;
      (exists i :: 0 <= i < |rules| && OwnsPort(rules[i], protocol, p)) <==>
        OwnsPort(rules[n], protocol, p) || exists i :: 0 <= i < n && OwnsPort(rules[..n][i], protocol, p)
  {
    hide OwnsPort;
    var n := |rules| - 1;
    forall i | 0 <= i < n ensures rules[..n][i] == rules[i] {
    }
  }

  lemma NoneMeetFront(rules: seq<Rule>, protocol: Protocol)
    requires rules != []
    ensures var n := |rules| - 1;
      NoneMeetOn(rules, protocol) <==> NoneMeetOn(rules[..n], protocol) && forall i :: 0 <= i < n ==> !MeetOn(rules[i], rules[n], protocol)
  {
    hide MeetOn;
    var n := |rules| - 1;
    if NoneMeetOn(rules[..n], protocol) {
      forall i, j | 0 <= i < j < n ensures !MeetOn(rules[i], rules[j], protocol) {
        assert rules[..n][i] == rules[i] && rules[..n][j] == rules[j];
      }
    }
  }

  lemma {:induction false} DisjointIffOn(rules: seq<Rule>, protocol: Protocol, daemonPort: int)
    requires forall i :: 0 <= i < |rules| ==> R.NormalRule(rules[i], daemonPort)
    ensures PairwiseDisjoint(Protected(rules, protocol)) <==> NoneMeetOn(rules, protocol)
  {
    hide R.NormalRule, RulePorts;
    if rules != [] {
      var n := |rules| - 1;
      var front, rule := rules[..n], rules[n];
      var before, own := Protected(front, protocol), RulePorts(rule, |rule.protocols|, protocol);
      DisjointIffOn(front, protocol, daemonPort);
      NoneMeetFront(rules, protocol);
      if rule.enabled {
        DisjointAppend(before, own);
        ProtectedOwned(front, protocol, daemonPort);
        OwnRanges(rule, protocol, daemonPort);
        CommonPort(before, own);
        MeetsOneOf(front, rule, protocol, before, own);
      }
      forall i | 0 <= i < n ensures rules[i] == front[i] {
      }
    }
  }

  lemma MeetsOneOf(front: seq<Rule>, rule: Rule, protocol: Protocol, before: seq<PortRange>, own: seq<PortRange>)
    requires rule.enabled
    requires forall p :: Covers(before, p) <==> exists i :: 0 <= i < |front| && OwnsPort(front[i], protocol, p)
    requires forall p :: Covers(own, p) <==> protocol in rule.protocols && Covers(rule.ports, p)
    ensures (exists p :: Covers(before, p) && Covers(own, p)) <==> exists i :: 0 <= i < |front| && MeetOn(front[i], rule, protocol)
  {
    hide Covers;
    forall p | Covers(before, p) && Covers(own, p) ensures exists i :: 0 <= i < |front| && MeetOn(front[i], rule, protocol) {
      var i :| 0 <= i < |front| && OwnsPort(front[i], protocol, p);
      assert OwnsPort(rule, protocol, p);
    }
    forall i | 0 <= i < |front| && MeetOn(front[i], rule, protocol) ensures exists p :: Covers(before, p) && Covers(own, p) {
      var p :| OwnsPort(front[i], protocol, p) && OwnsPort(rule, protocol, p);
      assert Covers(before, p) && Covers(own, p);
    }
  }

  /** The check of the sorted ranges finds a conflict exactly if two enabled rules have a port of a
      protocol in common. */
  lemma DisjointIffNoneMeet(rules: seq<Rule>, daemonPort: int)
    requires forall i :: 0 <= i < |rules| ==> R.NormalRule(rules[i], daemonPort)
    ensures PairwiseDisjoint(Protected(rules, Tcp)) && PairwiseDisjoint(Protected(rules, Udp)) <==> NoneMeet(rules)
  {
    hide R.NormalRule, PairwiseDisjoint, Protected, MeetOn;
    DisjointIffOn(rules, Tcp, daemonPort);
    DisjointIffOn(rules, Udp, daemonPort);
    if NoneMeetOn(rules, Tcp) && NoneMeetOn(rules, Udp) {
      forall i, j | 0 <= i < j < |rules| ensures !Meet(rules[i], rules[j]) {
        forall protocol ensures !MeetOn(rules[i], rules[j], protocol) {
          assert protocol == Tcp || protocol == Udp;
        }
      }
    }
  }

  lemma MeetIsMutual(a: Rule, b: Rule)
    ensures Meet(a, b) <==> Meet(b, a)
  {
    hide OwnsPort;
    forall protocol ensures MeetOn(a, b, protocol) <==> MeetOn(b, a, protocol) {
    }
  }

  // ----- adding, replacing and removing a rule

  /** A set of rules that passes validation, given that each of them is in normal form. */
  ghost predicate Fit(rules: seq<Rule>) {
    NoneMeet(rules) && forall i, j :: 0 <= i < j < |rules| ==> rules[i].id != rules[j].id
  }

  ghost predicate HasRule(rules: seq<Rule>, id: string) {
    exists i :: 0 <= i < |rules| && rules[i].id == id
  }

  /** No rule under another id has a port in common with this one. */
  ghost predicate HasRoom(rules: seq<Rule>, id: string, rule: Rule) {
    forall i :: 0 <= i < |rules| && rules[i].id != id ==> !Meet(rules[i], rule)
  }

  lemma FitMore(rules: seq<Rule>, rule: Rule)
    requires Fit(rules)
    ensures Fit(rules + [rule]) <==> !HasRule(rules, rule.id) && HasRoom(rules, rule.id, rule)
  {
    hide Meet;
    var more, n := rules + [rule], |rules|;
    if Fit(more) {
      forall i | 0 <= i < n ensures rules[i].id != rule.id && !Meet(rules[i], rule) {
        assert more[i] == rules[i] && more[n] == rule;
      }
    }
  }

  lemma FitReplaced(rules: seq<Rule>, index: nat, rule: Rule)
    requires Fit(rules) && index < |rules| && rules[index].id == rule.id
    ensures Fit(rules[index := rule]) <==> HasRoom(rules, rule.id, rule)
  {
    hide Meet;
    var changed := rules[index := rule];
    forall i | 0 <= i < |rules| && i != index ensures rules[i].id != rule.id && changed[i] == rules[i] {
    }
    if Fit(changed) {
      forall i | 0 <= i < |rules| && rules[i].id != rule.id ensures !Meet(rules[i], rule) {
        assert changed[i] == rules[i] && changed[index] == rule;
        MeetIsMutual(rules[i], rule);
      }
    }
    if HasRoom(rules, rule.id, rule) {
      forall i, j | 0 <= i < j < |changed| ensures !Meet(changed[i], changed[j]) {
        MeetIsMutual(changed[i], changed[j]);
      }
    }
  }

  lemma FitLess(rules: seq<Rule>, index: nat)
    requires Fit(rules) && index < |rules|
    ensures Fit(rules[..index] + rules[index + 1..])
  {
    hide Meet;
    var less := rules[..index] + rules[index + 1..];
    forall i, j | 0 <= i < j < |less| ensures !Meet(less[i], less[j]) && less[i].id != less[j].id {
      assert less[i] == rules[if i < index then i else i + 1] && less[j] == rules[if j < index then j else j + 1];
    }
  }
}
