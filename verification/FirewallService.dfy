/** The firewall service: optimistic concurrency over a failing backend, drift detection and timed
    grants mirrored in the kernel. Failures of the backend and of the state file, the passing of
    time and edits made by others are chosen freely at every point where they can happen.
    daemon/internal/firewall/service.go, daemon/internal/firewall/backend_linux.go */
module FirewallService {
  import opened Options
  import opened Ports
  import opened Renderer
  import C = Conflicts
  import P = Prefixes
  import R = Rules

  /** What the hash of the normalised listing identifies: the table apart from its grant elements. */
  datatype Fingerprint = Fingerprint(controls: Option<(seq<P.Prefix>, seq<P.Prefix>)>, chain: seq<ChainRule>)

  datatype PersistedState = PersistedState(
    schemaVersion: int, revision: int, policy: Policy, appliedHash: Option<Fingerprint>)

  datatype Error =
    | Unsupported | Drift | RevisionConflict | RuleNotFound | IdUnavailable
    | InspectFailed | ApplyFailed | ConfigWriteFailed
    | InvalidSourceIp | TooManyRequests | Invalid(reason: R.Error)

  datatype Outcome = Done | Failed(error: Error)

  const MAX_TEMPORARY_GRANTS := 2048
  const DEFAULT_GRANT_TTL_SECONDS := 600

  // ----- the kernel table

  function Erase(table: Table): Fingerprint {
    Fingerprint(
      if table.sets.Some? then Some((table.sets.value.control4, table.sets.value.control6)) else None,
      table.chain)
  }

  /** Declaring a table that exists adds to it: rules are appended, set elements are added. */
  function Merge(base: Option<Fingerprint>, added: Fingerprint): Fingerprint {
    if base.None? then added else
      Fingerprint(
        if base.value.controls.None? then added.controls
        else if added.controls.None? then base.value.controls
        else Some((base.value.controls.value.0 + added.controls.value.0, base.value.controls.value.1 + added.controls.value.1)),
        base.value.chain + added.chain)
  }

  /** The table after a script, or None where nft refuses it. */
  function Install(current: Option<Fingerprint>, deleteTable: bool, table: Option<Fingerprint>): Option<Option<Fingerprint>> {
    if deleteTable && current.None? then None else
      var base := if deleteTable then None else current;
      Some(if table.None? then base else Some(Merge(base, table.value)))
  }

  /** The table a policy asks for. */
  ghost function Desired(policy: Policy, daemonPort: int): Option<Fingerprint> {
    if !PolicyActive(policy) then None else
      Some(Fingerprint(
        if policy.system.enabled then
          Some((P.SplitFamily(policy.system.controlSources, P.IPv4), P.SplitFamily(policy.system.controlSources, P.IPv6)))
        else None,
        Chain(policy, daemonPort)))
  }

  lemma NothingDesired(policy: Policy, daemonPort: int)
    ensures Desired(policy, daemonPort) == None <==> !PolicyActive(policy)
  {
  }

  lemma RenderingIsDesired(policy: Policy, grants: map<GrantKey, Grant>, now: int, daemonPort: int, present: bool, script: Script)
    requires IsRendering(policy, grants, now, daemonPort, present, script)
    ensures (if script.table.Some? then Some(Erase(script.table.value)) else None) == Desired(policy, daemonPort)
  {
  }

  /** Adding to this table is as good as replacing it: it has no rules, and no control sources. */
  predicate Harmless(current: Fingerprint, policy: Policy) {
    && PolicyActive(policy) && current.chain == []
    && (current.controls.Some? ==> policy.system.enabled && current.controls.value == ([], []))
  }

  /** A script that takes effect leaves exactly the desired table if and only if the service knew
      whether a table was there, or the one it did not know of was empty. */
  lemma InstallsDesiredIffPresenceKnown(policy: Policy, daemonPort: int, present: bool, current: Option<Fingerprint>)
    requires Install(current, present, Desired(policy, daemonPort)).Some?
    ensures Install(current, present, Desired(policy, daemonPort)) == Some(Desired(policy, daemonPort))
      <==> present == current.Some? || (current.Some? && Harmless(current.value, policy))
  {
    hide Chain, P.SplitFamily;
    if current.Some? && !present && PolicyActive(policy) {
      MergesInto(current.value, Desired(policy, daemonPort).value);
    }
  }

  lemma MergesInto(base: Fingerprint, added: Fingerprint)
    ensures Merge(Some(base), added) == added <==>
      && base.chain == []
      && (base.controls.Some? ==> added.controls.Some? && base.controls.value == ([], []))
  {
    EmptyPrefix(base.chain, added.chain);
    if base.controls.Some? && added.controls.Some? {
      EmptyPrefix(base.controls.value.0, added.controls.value.0);
      EmptyPrefix(base.controls.value.1, added.controls.value.1);
    }
  }

  lemma EmptyPrefix<T>(a: seq<T>, b: seq<T>)
    ensures a + b == b <==> a == []
  {
    assert |a + b| == |a| + |b|;
  }

  /** An inspection failed while someone had put a table there: the script leaves out the delete, and
      the foreign rule keeps its place ahead of the whitelist. */
  lemma StalePresenceKeepsForeignRule(policy: Policy, daemonPort: int, foreign: ChainRule)
    requires PolicyActive(policy)
    ensures var current := Some(Fingerprint(None, [foreign]));
      var next := Install(current, false, Desired(policy, daemonPort));
      next.Some? && next.value.Some? && next.value.value.chain == [foreign] + Chain(policy, daemonPort)
  {
  }

  class Kernel {
    var table: Option<Fingerprint>
    /** Grant set elements with the instant they time out. */
    var elements: map<P.Address, int>
    var clock: int
    /** For each inspection so far, whether it succeeded. */
    ghost var inspections: seq<bool>
    /** How many calls so far, of the backend or to save the state file, failed at will. */
    ghost var faults: nat

    constructor ()
      ensures table == None && elements == map[] && inspections == [] && faults == 0
    {
      table, elements, clock, inspections, faults := None, map[], 0, [], 0;
    }

    /** A call that can fail for reasons that are not modelled. */
    method Fault() returns (failed: bool)
      modifies this`faults
      ensures faults == old(faults) + (if failed then 1 else 0)
    {
      failed := *;
      faults := faults + if failed then 1 else 0;
    }

    method Elapse()
      modifies this`clock
      ensures clock >= old(clock)
    {
      var d: nat :| d >= 0;
      clock := clock + d;
    }

    /** Anyone with the right to run nft may change anything between two operations. */
    method OutsideEdit(newTable: Option<Fingerprint>, newElements: map<P.Address, int>)
      modifies this`table, this`elements
      ensures table == newTable && elements == newElements
    {
      table, elements := newTable, newElements;
    }

    /** One atomic nft run; it fails as a whole or takes effect as a whole. */
    method Apply(script: Script) returns (ok: bool)
      modifies this`table, this`elements, this`clock, this`faults
      ensures clock >= old(clock)
      ensures !ok ==> table == old(table) && elements == old(elements)
      ensures faults >= old(faults)
      ensures faults == old(faults) ==> (ok <==>
        Install(old(table), script.deleteTable, if script.table.Some? then Some(Erase(script.table.value)) else None).Some?)
      ensures ok ==>
        Install(old(table), script.deleteTable, if script.table.Some? then Some(Erase(script.table.value)) else None)
          == Some(table)
      ensures ok && script.table.Some? && script.table.value.sets.Some? ==>
        var sets := script.table.value.sets.value;
        && (forall a :: a in sets.grants4 ==> a in elements && elements[a] == clock + sets.grants4[a] * SECOND)
        && (forall a :: a in sets.grants6 && a !in sets.grants4 ==> a in elements && elements[a] == clock + sets.grants6[a] * SECOND)
    {
      Elapse();
      var added := if script.table.Some? then Some(Erase(script.table.value)) else None;
      var failed := Fault();
      if failed {
        return false;
      }
      var next := Install(table, script.deleteTable, added);
      if next.None? {
        return false;
      }
      table := next.value;
      if script.deleteTable {
        elements := map[];
      }
      if script.table.Some? && script.table.value.sets.Some? {
        var sets := script.table.value.sets.value;
        elements := elements
          + (map a | a in sets.grants6 :: clock + sets.grants6[a] * SECOND)
          + (map a | a in sets.grants4 :: clock + sets.grants4[a] * SECOND);
      }
      return true;
    }

    method Inspect() returns (contents: Option<Option<Fingerprint>>)
      modifies this`inspections, this`faults
      ensures contents.Some? ==> contents.value == table
      ensures inspections == old(inspections) + [contents.Some?]
      ensures faults == old(faults) + if contents.Some? then 0 else 1
    {
      var failed := Fault();
      inspections := inspections + [!failed];
      if failed {
        return None;
      }
      return Some(table);
    }

    predicate HasGrantSets()
      reads `table
    {
      WithGrantSets(table)
    }

    /** One atomic `add element`: refused where the element is already there. */
    method AddElement(address: P.Address, ttlSeconds: int) returns (ok: bool, exists_: bool)
      modifies this`elements, this`clock, this`faults
      ensures clock >= old(clock) && faults >= old(faults)
      ensures ok ==> elements == old(elements)[address := clock + ttlSeconds * SECOND]
      ensures !ok ==> elements == old(elements)
      ensures faults == old(faults) ==>
        && (exists_ <==> HasGrantSets() && address in old(elements) && old(elements)[address] > clock)
        && (ok <==> HasGrantSets() && !exists_)
    {
      Elapse();
      var failed := Fault();
      if failed {
        return false, false;
      }
      if !HasGrantSets() {
        return false, false;
      }
      if address in elements && elements[address] > clock {
        return false, true;
      }
      elements := elements[address := clock + ttlSeconds * SECOND];
      return true, false;
    }

    /** One atomic `delete element` then `add element`: refused where the element is missing. */
    method ResetElement(address: P.Address, ttlSeconds: int) returns (ok: bool, missing: bool)
      modifies this`elements, this`clock, this`faults
      ensures clock >= old(clock) && faults >= old(faults)
      ensures ok ==> elements == old(elements)[address := clock + ttlSeconds * SECOND]
      ensures !ok ==> elements == old(elements)
      ensures faults == old(faults) ==>
        && (ok <==> HasGrantSets() && address in old(elements) && old(elements)[address] > clock)
        && (missing <==> !ok)
    {
      Elapse();
      var failed := Fault();
      if failed {
        return false, false;
      }
      if !HasGrantSets() || address !in elements || elements[address] <= clock {
        return false, true;
      }
      elements := elements[address := clock + ttlSeconds * SECOND];
      return true, false;
    }

    /** Adds or renews a grant: on success the element times out a full TTL after the call. Only a
        failing call, or a table without grant sets, keeps it from that. */
    method AddGrant(address: P.Address, ttlSeconds: int) returns (ok: bool, ghost at: int)
      modifies this`elements, this`clock, this`faults
      ensures old(clock) <= at <= clock && faults >= old(faults)
      ensures faults == old(faults) ==> (ok <==> HasGrantSets())
      ensures !ok ==> elements == old(elements)
      ensures ok ==> elements == old(elements)[address := at + ttlSeconds * SECOND]
    {
      var added, present := AddElement(address, ttlSeconds);
      if added {
        return true, clock;
      }
      if !present {
        return false, clock;
      }
      var reset, missing := ResetElement(address, ttlSeconds);
      if reset {
        return true, clock;
      }
      if missing {
        added, present := AddElement(address, ttlSeconds);
        return added, clock;
      }
      return false, clock;
    }

    /** Removing a missing element is a success. */
    method RemoveGrant(address: P.Address) returns (ok: bool)
      modifies this`elements, this`clock, this`faults
      ensures clock >= old(clock)
      ensures ok ==> elements == old(elements) - {address}
      ensures !ok ==> elements == old(elements)
      ensures faults == old(faults) + if ok then 0 else 1
    {
      Elapse();
      var failed := Fault();
      if failed {
        return false;
      }
      elements := elements - {address};
      return true;
    }
  }

  // ----- grants

  ghost predicate GrantsCovered(grants: map<GrantKey, Grant>, elements: map<P.Address, int>, clock: int) {
    forall k :: k in grants && grants[k].expiresAt > clock ==>
      grants[k].source in elements && elements[grants[k].source] >= grants[k].expiresAt
  }

  /** Each grant stands under its own source and session, and there are not too many. */
  ghost predicate WellKept(grants: map<GrantKey, Grant>) {
    && |grants| <= MAX_TEMPORARY_GRANTS
    && (forall k :: k in grants ==> grants[k].source == k.0 && grants[k].sessionID == k.1)
  }

  lemma WithinLaterTtl(grants: map<GrantKey, Grant>, ttl: int, clock: int, laterTtl: int, later: int)
    requires ttl <= laterTtl && clock <= later
    ensures GrantsWithinTtl(grants, ttl, clock) ==> GrantsWithinTtl(grants, laterTtl, later)
  {
  }

  lemma NoGrants(elements: map<P.Address, int>, ttl: int, clock: int)
    ensures WellKept(map[]) && GrantsCovered(map[], elements, clock) && GrantsWithinTtl(map[], ttl, clock)
  {
  }

  /** No recorded grant outlives a grant made now. */
  ghost predicate GrantsWithinTtl(grants: map<GrantKey, Grant>, ttlSeconds: int, clock: int) {
    forall k :: k in grants ==> grants[k].expiresAt <= clock + ttlSeconds * SECOND
  }

  /** With the grants of other addresses covered, a new element for an address covers all grants
      exactly when no grant of that address was promised for longer than the element now lives. */
  lemma RenewalCoversIff(grants: map<GrantKey, Grant>, elements: map<P.Address, int>, clock: int, a: P.Address, expiry: int)
    requires forall k :: k in grants && grants[k].source != a && grants[k].expiresAt > clock ==>
      grants[k].source in elements && elements[grants[k].source] >= grants[k].expiresAt
    ensures GrantsCovered(grants, elements[a := expiry], clock) <==>
      forall k :: k in grants && grants[k].source == a && grants[k].expiresAt > clock ==> grants[k].expiresAt <= expiry
  {
    var renewed := elements[a := expiry];
    if GrantsCovered(grants, renewed, clock) {
      forall k | k in grants && grants[k].source == a && grants[k].expiresAt > clock
        ensures grants[k].expiresAt <= expiry
      {
        assert grants[k].source in renewed;
      }
    }
  }

  /** A browser granted 600 seconds renews under a TTL since lowered to 60: its first grant is
      recorded for longer than the kernel keeps the address. */
  lemma LoweredTtlUncovers(a: P.Address)
    ensures var grants := map[(a, "s", "t1") := Grant(a, "s", "t1", 600 * SECOND)];
      GrantsCovered(grants, map[a := 600 * SECOND], 0) && !GrantsCovered(grants, map[a := 60 * SECOND], 0)
  {
    var key := (a, "s", "t1");
    var grants := map[key := Grant(a, "s", "t1", 600 * SECOND)];
    assert key in grants;
  }

  /** The elements of a rendering cover every grant unexpired when it was made, from whatever later
      instant the kernel starts counting. */
  lemma RenderedElementsCover(grants: map<GrantKey, Grant>, now: int, later: int, family: P.Family, rendered: map<P.Address, nat>, k: GrantKey)
    requires IsGrantElements(grants, now, family, rendered) && now <= later
    requires k in grants && grants[k].expiresAt > now && grants[k].source.family == family
    ensures grants[k].source in rendered
    ensures later + rendered[grants[k].source] * SECOND >= grants[k].expiresAt
  {
    var remaining: map<P.Address, int> :|
      && IsRemainingMap(grants, now, remaining)
      && rendered == map a | a in remaining && a.family == family :: FormatDuration(remaining[a]);
    assert IsRemaining(grants, now, grants[k].source, remaining[grants[k].source]);
  }

  function Unexpired(all: map<GrantKey, Grant>, now: int): map<GrantKey, Grant> {
    map k | k in all && now < all[k].expiresAt :: all[k]
  }

  predicate WithGrantSets(table: Option<Fingerprint>) {
    table.Some? && table.value.controls.Some?
  }

  /** The answer to a request for access while protection is on, if no call fails: the checks in their
      order. */
  ghost function GrantAnswer(state: PersistedState, table: Option<Fingerprint>, before: map<GrantKey, Grant>, since: int,
                             source: Option<P.Address>, sessionID: string, ticketID: string): Outcome
  {
    if Drifted(state, table) then Failed(Drift)
    else if source.None? || R.IsUnspecified(source.value) then Failed(InvalidSourceIp)
    else if R.IsLoopback(source.value) then Done
    else AddAnswer(table, Unexpired(before, since), (source.value, sessionID, ticketID))
  }

  /** Renewing a grant is always possible, a new one only below the limit. */
  ghost function AddAnswer(table: Option<Fingerprint>, live: map<GrantKey, Grant>, key: GrantKey): Outcome {
    if key !in live && |live| >= MAX_TEMPORARY_GRANTS then Failed(TooManyRequests)
    else if !WithGrantSets(table) then Failed(ApplyFailed)
    else Done
  }

  // ----- what the rule mutations do to the rules

  /** The rule an input asks for: the same ports in normal form and exactly the named sources. */
  ghost predicate Answers(rule: Rule, id: string, input: R.RuleInput) {
    && rule.id == id && rule.enabled == input.enabled
    && SameCoverage(rule.ports, input.ports) && R.IsSourceList(input.sources, rule.sources)
    && (forall p :: p in rule.protocols <==> R.Known(p) in input.protocols)
    && rule.note == R.TrimSpace(input.note)
  }

  /** A rule and an input ask for a port of a protocol both. */
  ghost predicate Clashes(rule: Rule, input: R.RuleInput) {
    input.enabled && exists protocol, p :: C.OwnsPort(rule, protocol, p) && R.Known(protocol) in input.protocols && Covers(input.ports, p)
  }

  ghost predicate HasRoom(rules: seq<Rule>, id: string, input: R.RuleInput) {
    forall i :: 0 <= i < |rules| && rules[i].id != id ==> !Clashes(rules[i], input)
  }

  lemma ClashesIsMeeting(a: Rule, rule: Rule, id: string, input: R.RuleInput)
    requires Answers(rule, id, input)
    ensures Clashes(a, input) <==> C.Meet(a, rule)
  {
    forall protocol, p
      ensures C.OwnsPort(rule, protocol, p) <==> input.enabled && R.Known(protocol) in input.protocols && Covers(input.ports, p)
    {
    }
    if Clashes(a, input) {
      var protocol, p :| C.OwnsPort(a, protocol, p) && R.Known(protocol) in input.protocols && Covers(input.ports, p);
      assert C.OwnsPort(rule, protocol, p);
      assert C.MeetOn(a, rule, protocol);
    }
    if C.Meet(a, rule) {
      var protocol :| C.MeetOn(a, rule, protocol);
      var p :| C.OwnsPort(a, protocol, p) && C.OwnsPort(rule, protocol, p);
    }
  }

  lemma RoomIsRoom(rules: seq<Rule>, rule: Rule, id: string, input: R.RuleInput)
    requires Answers(rule, id, input)
    ensures C.HasRoom(rules, id, rule) <==> HasRoom(rules, id, input)
  {
    hide Answers, Clashes, C.Meet;
    forall i | 0 <= i < |rules| ensures Clashes(rules[i], input) <==> C.Meet(rules[i], rule) {
      ClashesIsMeeting(rules[i], rule, id, input);
    }
  }

  /** The table is not the one the recorded state was last seen with. */
  ghost predicate Drifted(state: PersistedState, table: Option<Fingerprint>) {
    if table.None? then PolicyActive(state.policy) else state.appliedHash != table
  }

  /** What a mutation needs before it is looked at. */
  ghost predicate Ready(state: PersistedState, table: Option<Fingerprint>, expectedRevision: int) {
    !Drifted(state, table) && expectedRevision == state.revision
  }

  ghost predicate CanCreate(rules: seq<Rule>, id: Option<string>, input: R.RuleInput, daemonPort: int) {
    && id.Some? && R.AcceptableInput(id.value, input, daemonPort)
    && !C.HasRule(rules, id.value) && HasRoom(rules, id.value, input)
  }

  ghost predicate CanUpdate(rules: seq<Rule>, id: string, input: R.RuleInput, daemonPort: int) {
    C.HasRule(rules, id) && R.AcceptableInput(id, input, daemonPort) && HasRoom(rules, id, input)
  }

  function EffectiveTtl(ttlSeconds: int): int {
    if ttlSeconds == 0 then DEFAULT_GRANT_TTL_SECONDS else ttlSeconds
  }

  ghost predicate CanConfigure(enabled: bool, sources: seq<R.SourceInput>, ttlSeconds: int) {
    && (forall i :: 0 <= i < |sources| ==> R.UsableSource(sources[i], false))
    && 60 <= EffectiveTtl(ttlSeconds) <= 3600
    && (enabled ==> exists i :: 0 <= i < |sources| && !sources[i].Blank?)
  }

  /** The answer to a mutation if no call fails: its checks in their order, then what it asks for. */
  ghost predicate Answered(outcome: Outcome, state: PersistedState, table: Option<Fingerprint>, expectedRevision: int,
                           missing: Option<Error>, fits: bool) {
    if Drifted(state, table) then outcome == Failed(Drift)
    else if expectedRevision != state.revision then outcome == Failed(RevisionConflict)
    else if missing.Some? then outcome == Failed(missing.value)
    else if fits then outcome.Done?
    else outcome.Failed? && outcome.error.Invalid?
  }

  ghost predicate Created(before: seq<Rule>, after: seq<Rule>, id: string, input: R.RuleInput) {
    |after| == |before| + 1 && after[..|before|] == before && Answers(after[|before|], id, input)
  }

  ghost predicate Updated(before: seq<Rule>, after: seq<Rule>, id: string, input: R.RuleInput) {
    && |after| == |before|
    && (forall i :: 0 <= i < |before| && before[i].id != id ==> after[i] == before[i])
    && (exists i :: 0 <= i < |before| && before[i].id == id && Answers(after[i], id, input))
  }

  lemma RemainderIsDeleted(rules: seq<Rule>, index: nat, id: string)
    requires index < |rules| && rules[index].id == id
    ensures Deleted(rules, rules[..index] + rules[index + 1..], id)
  {
  }

  lemma ReplacedIsUpdated(before: seq<Rule>, index: nat, rule: Rule, id: string, input: R.RuleInput)
    requires index < |before| && before[index].id == id && Answers(rule, id, input)
    ensures Updated(before, before[index := rule], id, input)
  {
    hide Answers;
  }

  lemma FitsIfRoom(rules: seq<Rule>, rule: Rule, id: string, input: R.RuleInput)
    requires C.Fit(rules) && Answers(rule, id, input)
    ensures C.Fit(rules + [rule]) <==> !C.HasRule(rules, id) && HasRoom(rules, id, input)
  {
    hide C.Fit, C.HasRule, HasRoom, C.HasRoom;
    C.FitMore(rules, rule);
    RoomIsRoom(rules, rule, id, input);
  }

  lemma FitsReplaced(rules: seq<Rule>, index: nat, rule: Rule, id: string, input: R.RuleInput)
    requires C.Fit(rules) && index < |rules| && rules[index].id == id && Answers(rule, id, input)
    ensures C.Fit(rules[index := rule]) <==> HasRoom(rules, id, input)
  {
    hide C.Fit, HasRoom, C.HasRoom;
    C.FitReplaced(rules, index, rule);
    RoomIsRoom(rules, rule, id, input);
  }

  ghost predicate Deleted(before: seq<Rule>, after: seq<Rule>, id: string) {
    exists i :: 0 <= i < |before| && before[i].id == id && after == before[..i] + before[i + 1..]
  }

  // ----- the service

  class Service {
    const port: int
    const kernel: Kernel
    var state: PersistedState
    var grants: map<GrantKey, Grant>
    var observedHash: Option<Fingerprint>
    var tablePresent: bool
    var drift: bool
    var lastError: bool
    /** Whether every committed state was applied knowing if a table was present. */
    ghost var sighted: bool
    /** The expected revisions of the committed mutations, oldest first. */
    ghost var committed: seq<int>

    ghost predicate Valid()
      reads `state, `grants, `sighted, `committed
    {
      Core() && (!state.policy.system.enabled ==> grants == map[])
    }

    ghost predicate Core()
      reads `state, `grants, `sighted, `committed
    {
      StateOk() && HistoryOk() && GrantsOk()
    }

    ghost predicate StateOk()
      reads `state, `sighted
    {
      && R.ValidPolicy(state.policy, port)
      && state.schemaVersion == R.SCHEMA_VERSION && state.revision >= 0
      && (sighted ==> HashIsDesired())
    }

    ghost predicate HistoryOk()
      reads `state, `committed
    {
      && (forall i, j :: 0 <= i < j < |committed| ==> committed[i] < committed[j])
      && (forall i :: 0 <= i < |committed| ==> committed[i] < state.revision)
    }

    ghost predicate GrantsOk()
      reads `grants
    {
      WellKept(grants)
    }

    lemma RecordedIsNormal()
      requires Core()
      ensures NormalCandidate(state) && forall i :: 0 <= i < |committed| ==> committed[i] < state.revision
    {
      hide R.NormalRule, R.NormalSources;
    }

    lemma SightedHash()
      requires Core()
      ensures sighted ==> HashIsDesired()
    {
      hide R.ValidPolicy, HashIsDesired;
    }

    lemma GrantsBounded()
      requires Valid()
      ensures |grants| <= MAX_TEMPORARY_GRANTS
    {
      hide StateOk, HistoryOk;
    }

    /** The recorded hash, when there is one, is that of the table the recorded state asks for. */
    ghost predicate HashIsDesired()
      reads `state
    {
      state.appliedHash.Some? ==> Desired(state.policy, port) == state.appliedHash
    }

    /** While protection is on, every recorded unexpired grant is in the kernel set at least until it
        expires. */
    ghost predicate Covered()
      reads `state, `grants, kernel`elements, kernel`clock
    {
      state.policy.system.enabled ==>
        && GrantsCovered(grants, kernel.elements, kernel.clock)
        && GrantsWithinTtl(grants, state.policy.system.grantTtlSeconds, kernel.clock)
    }

    /** Starts from a state file written by an earlier run on the same port, or from none. */
    constructor (port: int, kernel: Kernel, loaded: PersistedState)
      requires loaded.appliedHash.Some? ==> Desired(loaded.policy, port) == loaded.appliedHash
      requires R.ValidPolicy(loaded.policy, port) && loaded.schemaVersion == R.SCHEMA_VERSION && loaded.revision >= 0
      ensures Valid() && sighted && committed == [] && grants == map[]
      ensures this.port == port && this.kernel == kernel && state == loaded
    {
      this.port, this.kernel, this.state := port, kernel, loaded;
      this.grants, this.observedHash, this.tablePresent := map[], None, false;
      this.drift, this.lastError := false, false;
      this.sighted, this.committed := true, [];
    }

    method PrepareBackend() returns (ok: bool)
      modifies kernel`faults
      ensures kernel.faults == old(kernel.faults) + if ok then 0 else 1
    {
      var failed := kernel.Fault();
      ok := !failed;
    }

    /** persistState. */
    method Persist() returns (ok: bool)
      modifies kernel`faults
      ensures kernel.faults == old(kernel.faults) + if ok then 0 else 1
    {
      var failed := kernel.Fault();
      ok := !failed;
    }

    /** After a successful inspection, no drift means the installed table is the one the recorded
        state asks for, apart from grant elements. */
    method RefreshObserved()
      requires Core()
      modifies this`lastError, this`tablePresent, this`observedHash, this`drift, kernel`inspections, kernel`faults
      ensures Core() && (old(Valid()) ==> Valid())
      ensures kernel.inspections == old(kernel.inspections) + [!lastError]
      ensures kernel.faults == old(kernel.faults) + if lastError then 1 else 0
      ensures !lastError ==> tablePresent == kernel.table.Some?
      ensures !lastError && !drift && sighted ==> kernel.table == Desired(state.policy, port)
      ensures !lastError ==> (drift <==> Drifted(state, kernel.table))
    {
      hide Core, Desired;
      SightedHash();
      NothingDesired(state.policy, port);
      var contents := kernel.Inspect();
      if contents.None? {
        lastError := true;
        return;
      }
      lastError := false;
      tablePresent := contents.value.Some?;
      if !tablePresent {
        observedHash := None;
        drift := StateActive(state.policy);
        return;
      }
      observedHash := contents.value;
      drift := state.appliedHash == None || state.appliedHash != observedHash;
    }

    method PrepareMutation(expectedRevision: int) returns (outcome: Outcome)
      requires Core()
      modifies this`lastError, this`tablePresent, this`observedHash, this`drift, kernel`inspections, kernel`faults
      ensures Core() && (old(Valid()) ==> Valid()) && kernel.faults >= old(kernel.faults)
      ensures kernel.faults == old(kernel.faults) ==> !lastError && Answered(outcome, state, kernel.table, expectedRevision, None, true)
      ensures kernel.inspections == old(kernel.inspections) + [!lastError]
        || (outcome.Failed? && kernel.inspections == old(kernel.inspections))
      ensures outcome.Done? ==> expectedRevision == state.revision && !drift
      ensures outcome.Failed? ==> outcome.error in {Unsupported, Drift, RevisionConflict}
      ensures outcome.Done? && !lastError ==> tablePresent == kernel.table.Some?
      ensures outcome.Done? && !lastError && sighted ==> kernel.table == Desired(state.policy, port)
    {
      hide Core, Desired, PolicyActive, Drifted;
      var supported := PrepareBackend();
      if !supported {
        return Failed(Unsupported);
      }
      RefreshObserved();
      if drift {
        return Failed(Drift);
      }
      if expectedRevision != state.revision {
        return Failed(RevisionConflict);
      }
      return Done;
    }

    /** Validates, renders and applies a candidate; a failure leaves the kernel table as it was. */
    method InstallCandidate(candidate: PersistedState) returns (error: Option<Error>)
      requires NormalCandidate(candidate)
      modifies this`lastError, kernel`table, kernel`elements, kernel`clock, kernel`faults
      ensures kernel.clock >= old(kernel.clock) && kernel.faults >= old(kernel.faults)
      ensures error.Some? ==> error.value.Invalid? || error.value == ApplyFailed
      ensures error.Some? && error.value.Invalid? <==> !Sound(candidate)
      ensures error.Some? && !error.value.Invalid? ==>
        kernel.faults > old(kernel.faults) || old(tablePresent != kernel.table.Some?)
      ensures error.Some? ==> kernel.table == old(kernel.table) && kernel.elements == old(kernel.elements)
      ensures error.None? && old(tablePresent == kernel.table.Some?) ==> kernel.table == Desired(candidate.policy, port)
      ensures error.None? && candidate.policy.system.enabled ==> GrantsCovered(grants, kernel.elements, kernel.clock)
      ensures error.None? ==> R.ValidPolicy(candidate.policy, port) && candidate.schemaVersion == R.SCHEMA_VERSION && candidate.revision >= 0
    {
      hide R.ValidPolicy, R.NormalRule, R.NormalSources, Desired, GrantsCovered, IsRendering, Install, PairwiseDisjoint, Protected, R.RulesAcceptable, R.SystemAcceptable;
      var invalid := R.ValidateState(candidate.schemaVersion, candidate.revision, candidate.policy, port);
      if invalid.Some? {
        return Some(Invalid(invalid.value));
      }
      var now := kernel.clock;
      var script := RenderScript(candidate.policy, grants, now, port, tablePresent);
      RenderingIsDesired(candidate.policy, grants, now, port, tablePresent, script);
      RenderingDeletes(candidate.policy, grants, now, port, tablePresent, script);
      ValidatedIsValid(candidate);
      ghost var before := kernel.table;
      if script.deleteTable == before.Some? { Replaces(candidate.policy, port, before); }
      var applied := kernel.Apply(script);
      if !applied {
        lastError := true;
        return Some(ApplyFailed);
      }
      CandidateCovers(candidate, now, script);
      return None;
    }

    /** What validateState accepts. */
    ghost predicate Sound(candidate: PersistedState) {
      && candidate.schemaVersion == R.SCHEMA_VERSION && candidate.revision >= 0
      && R.SystemAcceptable(candidate.policy.system) && R.RulesAcceptable(candidate.policy.rules, port)
      && PairwiseDisjoint(Protected(candidate.policy.rules, Tcp)) && PairwiseDisjoint(Protected(candidate.policy.rules, Udp))
    }

    lemma ValidatedIsValid(candidate: PersistedState)
      requires NormalCandidate(candidate) && Sound(candidate)
      ensures R.ValidPolicy(candidate.policy, port)
    {
      hide PairwiseDisjoint, Protected, R.NormalRule, R.NormalSources;
    }

    lemma RenderingDeletes(policy: Policy, all: map<GrantKey, Grant>, now: int, daemonPort: int, present: bool, script: Script)
      requires IsRendering(policy, all, now, daemonPort, present, script)
      ensures script.deleteTable == present
    {
    }

    lemma Replaces(policy: Policy, daemonPort: int, current: Option<Fingerprint>)
      ensures Install(current, current.Some?, Desired(policy, daemonPort)) == Some(Desired(policy, daemonPort))
    {
      hide Desired;
    }

    lemma CoverLasts(all: map<GrantKey, Grant>, elements: map<P.Address, int>, before: int, now: int)
      requires before <= now
      ensures GrantsCovered(all, elements, before) ==> GrantsCovered(all, elements, now)
    {
    }

    /** Every candidate is built from normalised rules and control sources. */
    ghost predicate NormalCandidate(candidate: PersistedState)
    {
      && candidate.revision >= 0
      && (forall i :: 0 <= i < |candidate.policy.rules| ==> R.NormalRule(candidate.policy.rules[i], port))
      && R.NormalSources(candidate.policy.system.controlSources)
    }

    /** Installs a candidate and, if it is then seen in the kernel and saved, records it. A failure
        leaves the recorded state as it was. */
    method ApplyCandidate(candidate: PersistedState) returns (outcome: Outcome)
      requires Core() && NormalCandidate(candidate)
      requires forall i :: 0 <= i < |committed| ==> committed[i] < candidate.revision
      modifies this`state, this`tablePresent, this`observedHash, this`drift, this`lastError, this`sighted, kernel
      ensures Core() && kernel.clock >= old(kernel.clock) && old(kernel.inspections) <= kernel.inspections
      ensures outcome.Failed? ==> state == old(state)
      ensures outcome.Done? ==> state == candidate.(appliedHash := kernel.table)
      ensures outcome.Done? ==> !drift && !lastError
      ensures kernel.faults >= old(kernel.faults)
      ensures outcome.Failed? ==> outcome.error.Invalid? || outcome.error in {ApplyFailed, InspectFailed, ConfigWriteFailed}
      ensures outcome.Failed? && outcome.error.Invalid? <==> !Sound(candidate)
      ensures outcome.Failed? && !outcome.error.Invalid? ==>
        kernel.faults > old(kernel.faults) || old(tablePresent != kernel.table.Some?)
      ensures old(tablePresent == kernel.table.Some?) && outcome.Done? ==> kernel.table == Desired(state.policy, port)
      ensures old(sighted && tablePresent == kernel.table.Some?) ==> sighted
      ensures sighted && outcome.Done? ==> kernel.table == Desired(state.policy, port)
      ensures candidate.policy.system.enabled && outcome.Done? ==> GrantsCovered(grants, kernel.elements, kernel.clock)
      ensures candidate.policy.system.enabled && old(GrantsCovered(grants, kernel.elements, kernel.clock)) ==>
        GrantsCovered(grants, kernel.elements, kernel.clock)
    {
      hide HistoryOk, GrantsOk, Desired, R.ValidPolicy, R.NormalRule, R.NormalSources, GrantsCovered, Sound, NormalCandidate, PolicyActive;
      var known := tablePresent == kernel.table.Some?;
      var error := InstallCandidate(candidate);
      if error.Some? {
        CoverLasts(grants, kernel.elements, old(kernel.clock), kernel.clock);
        return Failed(error.value);
      }
      sighted := sighted && known;
      outcome := Confirm(candidate);
    }

    /** A candidate that was installed is recorded if it can be seen in the kernel and saved. */
    method Confirm(candidate: PersistedState) returns (outcome: Outcome)
      requires Core() && (sighted ==> kernel.table == Desired(candidate.policy, port))
      requires forall i :: 0 <= i < |committed| ==> committed[i] < candidate.revision
      requires R.ValidPolicy(candidate.policy, port) && candidate.schemaVersion == R.SCHEMA_VERSION && candidate.revision >= 0
      modifies this`state, this`tablePresent, this`observedHash, this`drift, this`lastError, kernel`inspections, kernel`faults
      ensures Core() && old(kernel.inspections) <= kernel.inspections && kernel.faults >= old(kernel.faults)
      ensures outcome.Failed? ==> state == old(state) && outcome.error in {InspectFailed, ConfigWriteFailed}
      ensures outcome.Failed? <==> kernel.faults > old(kernel.faults)
      ensures outcome.Done? ==> state == candidate.(appliedHash := kernel.table) && !drift && !lastError
    {
      hide HistoryOk, GrantsOk, Desired, R.ValidPolicy;
      var contents := kernel.Inspect();
      if contents.None? {
        lastError := true;
        return Failed(InspectFailed);
      }
      var saved := Persist();
      if !saved {
        lastError := true;
        return Failed(ConfigWriteFailed);
      }
      Record(candidate.(appliedHash := contents.value));
      return Done;
    }

    method Record(recorded: PersistedState)
      requires Core()
      requires sighted ==> recorded.appliedHash.Some? ==> Desired(recorded.policy, port) == recorded.appliedHash
      requires forall i :: 0 <= i < |committed| ==> committed[i] < recorded.revision
      requires R.ValidPolicy(recorded.policy, port) && recorded.schemaVersion == R.SCHEMA_VERSION && recorded.revision >= 0
      modifies this`state, this`tablePresent, this`observedHash, this`drift, this`lastError
      ensures Core()
      ensures state == recorded && tablePresent == recorded.appliedHash.Some? && observedHash == recorded.appliedHash
      ensures !drift && !lastError
    {
      hide GrantsOk, Desired, R.ValidPolicy;
      state := recorded;
      tablePresent := recorded.appliedHash.Some?;
      observedHash := recorded.appliedHash;
      drift := false;
      lastError := false;
    }

    lemma CandidateCovers(candidate: PersistedState, now: int, script: Script)
      requires now <= kernel.clock
      requires IsRendering(candidate.policy, grants, now, port, script.deleteTable, script)
      requires script.table.Some? && script.table.value.sets.Some? ==>
        var sets := script.table.value.sets.value;
        && (forall a :: a in sets.grants4 ==> a in kernel.elements && kernel.elements[a] == kernel.clock + sets.grants4[a] * SECOND)
        && (forall a :: a in sets.grants6 && a !in sets.grants4 ==>
             a in kernel.elements && kernel.elements[a] == kernel.clock + sets.grants6[a] * SECOND)
      ensures candidate.policy.system.enabled ==> GrantsCovered(grants, kernel.elements, kernel.clock)
    {
      if candidate.policy.system.enabled {
        var sets := script.table.value.sets.value;
        forall k | k in grants && grants[k].expiresAt > kernel.clock
          ensures grants[k].source in kernel.elements && kernel.elements[grants[k].source] >= grants[k].expiresAt
        {
          var family := grants[k].source.family;
          RenderedElementsCover(grants, now, kernel.clock, family, if family.IPv4? then sets.grants4 else sets.grants6, k);
          assert family.IPv6? ==> grants[k].source !in sets.grants4;
        }
      }
    }

    // ----- mutations

    /** The first inspection of a request, if there was one, succeeded. */
    static predicate OpeningSeen(before: seq<bool>, after: seq<bool>) {
      |after| > |before| ==> after[|before|]
    }

    /** There was a first inspection of a request, and it succeeded. */
    static predicate OpeningInspected(before: seq<bool>, after: seq<bool>) {
      |after| > |before| && after[|before|]
    }

    /** A committed mutation carried the current revision and raised it by one; a failed one changed
        nothing that is recorded. */
    ghost predicate Follows(before: PersistedState, history: seq<int>, expectedRevision: int, outcome: Outcome)
      reads `state, `committed
    {
      if outcome.Done? then
        before.revision == expectedRevision && state.revision == expectedRevision + 1
        && committed == history + [expectedRevision]
      else
        state == before && committed == history
    }

    /** The common end of the rule mutations: the next revision with other rules. */
    method CommitRules(rules: seq<Rule>, expectedRevision: int) returns (outcome: Outcome)
      requires Valid() && expectedRevision == state.revision
      requires forall i :: 0 <= i < |rules| ==> R.NormalRule(rules[i], port)
      modifies this, kernel
      ensures Valid() && Follows(old(state), old(committed), expectedRevision, outcome)
      ensures old(kernel.inspections) <= kernel.inspections && kernel.faults >= old(kernel.faults)
      ensures outcome.Failed? ==> outcome.error.Invalid? || outcome.error in {ApplyFailed, InspectFailed, ConfigWriteFailed}
      ensures outcome.Failed? && outcome.error.Invalid? <==> !C.Fit(rules)
      ensures outcome.Failed? && !outcome.error.Invalid? ==>
        kernel.faults > old(kernel.faults) || old(tablePresent != kernel.table.Some?)
      ensures old(sighted && tablePresent == kernel.table.Some?) ==> sighted
      ensures sighted && outcome.Done? ==> kernel.table == Desired(state.policy, port)
      ensures old(Covered()) ==> Covered()
      ensures outcome.Done? ==> state.policy == old(state.policy).(rules := rules)
    {
      hide StateOk, GrantsOk, Desired, R.NormalRule, R.NormalSources, GrantsCovered, Sound, C.Fit;
      RecordedIsNormal();
      SoundIffFit(rules);
      outcome := ApplyCandidate(state.(policy := state.policy.(rules := rules), revision := state.revision + 1));
      if outcome.Done? {
        committed := committed + [expectedRevision];
      }
    }

    /** Other rules in normal form are accepted exactly if their identifiers and ports are distinct. */
    lemma SoundIffFit(rules: seq<Rule>)
      requires Core() && forall i :: 0 <= i < |rules| ==> R.NormalRule(rules[i], port)
      ensures Sound(state.(policy := state.policy.(rules := rules), revision := state.revision + 1)) <==> C.Fit(rules)
    {
      hide R.NormalRule, R.AcceptableInput, PairwiseDisjoint, Protected, C.NoneMeet, R.UsableSource, R.NormalSources;
      C.DisjointIffNoneMeet(rules, port);
      RecordedSystemIsAcceptable();
      forall i | 0 <= i < |rules| ensures R.AcceptableInput(rules[i].id, R.AsInput(rules[i]), port) {
        R.NormalRuleIsAcceptable(rules[i], port);
      }
    }

    lemma RecordedSystemIsAcceptable()
      requires Core()
      ensures R.SystemAcceptable(state.policy.system)
    {
      hide R.NormalRule, R.UsableSource, R.NormalSources;
      NormalAreUsable(state.policy.system.controlSources);
    }

    lemma NormalAreUsable(sources: seq<P.Prefix>)
      requires R.NormalSources(sources)
      ensures forall i :: 0 <= i < |sources| ==> R.UsableSource(R.Cidr(sources[i]), false)
    {
      forall i | 0 <= i < |sources| ensures R.UsableSource(R.Cidr(sources[i]), false) {
        R.MaskedIsFixed(sources[i]);
      }
    }

    lemma RecordedRulesFit()
      requires Core()
      ensures C.Fit(state.policy.rules) && forall i :: 0 <= i < |state.policy.rules| ==> R.NormalRule(state.policy.rules[i], port)
    {
      hide R.NormalRule, PairwiseDisjoint, Protected, C.NoneMeet;
      C.DisjointIffNoneMeet(state.policy.rules, port);
    }

    method BuildRule(id: string, input: R.RuleInput) returns (rule: R.Result<Rule>)
      ensures rule.Ok? <==> R.AcceptableInput(id, input, port)
      ensures rule.Ok? ==> R.NormalRule(rule.value, port) && Answers(rule.value, id, input)
    {
      hide R.NormalRule, R.IsSourceList, R.AcceptableInput, R.TrimSpace, SameCoverage, NormalizePorts;
      rule := R.NormalizeRule(id, input, port);
    }

    method CreateRule(expectedRevision: int, id: Option<string>, input: R.RuleInput)
      returns (outcome: Outcome)
      requires Valid()
      modifies this, kernel
      ensures Valid() && Follows(old(state), old(committed), expectedRevision, outcome)
      ensures old(kernel.inspections) <= kernel.inspections && kernel.faults >= old(kernel.faults)
      ensures kernel.faults == old(kernel.faults) ==>
        Answered(outcome, old(state), old(kernel.table), expectedRevision, if id.None? then Some(IdUnavailable) else None,
                 CanCreate(old(state.policy.rules), id, input, port))
      ensures old(sighted) && OpeningSeen(old(kernel.inspections), kernel.inspections) ==> sighted
      ensures sighted && outcome.Done? ==> kernel.table == Desired(state.policy, port)
      ensures old(Covered()) ==> Covered()
      ensures outcome.Done? ==> state.policy.system == old(state.policy.system)
      ensures outcome.Done? ==> id.Some? && Created(old(state.policy.rules), state.policy.rules, id.value, input)
    {
      hide Core, R.NormalRule, R.NormalSources, Desired, Answers, Covered, SameCoverage, Drifted, C.Fit, C.HasRule, HasRoom, R.AcceptableInput;
      RecordedIsNormal();
      RecordedRulesFit();
      outcome := PrepareMutation(expectedRevision);
      if outcome.Failed? {
        return;
      }
      if id.None? {
        return Failed(IdUnavailable);
      }
      var rule := BuildRule(id.value, input);
      if rule.Err? {
        return Failed(Invalid(rule.error));
      }
      FitsIfRoom(state.policy.rules, rule.value, id.value, input);
      outcome := CommitRules(state.policy.rules + [rule.value], expectedRevision);
    }

    method FindRule(rules: seq<Rule>, id: string) returns (index: int)
      ensures index == -1 ==> forall i :: 0 <= i < |rules| ==> rules[i].id != id
      ensures index != -1 ==> 0 <= index < |rules| && rules[index].id == id
    {
      for i := 0 to |rules|
        invariant forall j :: 0 <= j < i ==> rules[j].id != id
      {
        if rules[i].id == id {
          return i;
        }
      }
      return -1;
    }

    method UpdateRule(expectedRevision: int, id: string, input: R.RuleInput)
      returns (outcome: Outcome)
      requires Valid()
      modifies this, kernel
      ensures Valid() && Follows(old(state), old(committed), expectedRevision, outcome)
      ensures old(kernel.inspections) <= kernel.inspections && kernel.faults >= old(kernel.faults)
      ensures kernel.faults == old(kernel.faults) ==>
        Answered(outcome, old(state), old(kernel.table), expectedRevision,
                 if C.HasRule(old(state.policy.rules), id) then None else Some(RuleNotFound),
                 CanUpdate(old(state.policy.rules), id, input, port))
      ensures old(sighted) && OpeningSeen(old(kernel.inspections), kernel.inspections) ==> sighted
      ensures sighted && outcome.Done? ==> kernel.table == Desired(state.policy, port)
      ensures outcome == Failed(RuleNotFound) ==> !C.HasRule(old(state.policy.rules), id)
      ensures old(Covered()) ==> Covered()
      ensures outcome.Done? ==> state.policy.system == old(state.policy.system)
      ensures outcome.Done? ==> Updated(old(state.policy.rules), state.policy.rules, id, input)
    {
      hide Core, R.NormalRule, R.NormalSources, Desired, Answers, Updated, Covered, Drifted, C.Fit, HasRoom, R.AcceptableInput;
      RecordedIsNormal();
      RecordedRulesFit();
      outcome := PrepareMutation(expectedRevision);
      if outcome.Failed? {
        return;
      }
      var index := FindRule(state.policy.rules, id);
      if index < 0 {
        return Failed(RuleNotFound);
      }
      var rule := BuildRule(id, input);
      if rule.Err? {
        return Failed(Invalid(rule.error));
      }
      ReplacedIsUpdated(state.policy.rules, index, rule.value, id, input);
      FitsReplaced(state.policy.rules, index, rule.value, id, input);
      outcome := CommitRules(state.policy.rules[index := rule.value], expectedRevision);
    }

    method DeleteRule(expectedRevision: int, id: string) returns (outcome: Outcome)
      requires Valid()
      modifies this, kernel
      ensures Valid() && Follows(old(state), old(committed), expectedRevision, outcome)
      ensures old(kernel.inspections) <= kernel.inspections && kernel.faults >= old(kernel.faults)
      ensures kernel.faults == old(kernel.faults) ==>
        Answered(outcome, old(state), old(kernel.table), expectedRevision,
                 if C.HasRule(old(state.policy.rules), id) then None else Some(RuleNotFound), true)
      ensures old(sighted) && OpeningSeen(old(kernel.inspections), kernel.inspections) ==> sighted
      ensures sighted && outcome.Done? ==> kernel.table == Desired(state.policy, port)
      ensures outcome == Failed(RuleNotFound) ==> !C.HasRule(old(state.policy.rules), id)
      ensures old(Covered()) ==> Covered()
      ensures outcome.Done? ==> state.policy.system == old(state.policy.system)
      ensures outcome.Done? ==> Deleted(old(state.policy.rules), state.policy.rules, id)
    {
      hide Core, R.NormalRule, R.NormalSources, Desired, Deleted, Covered, Drifted, C.Fit;
      RecordedIsNormal();
      RecordedRulesFit();
      outcome := PrepareMutation(expectedRevision);
      if outcome.Failed? {
        return;
      }
      var index := FindRule(state.policy.rules, id);
      if index < 0 {
        return Failed(RuleNotFound);
      }
      RemainderIsDeleted(state.policy.rules, index, id);
      C.FitLess(state.policy.rules, index);
      outcome := CommitRules(state.policy.rules[..index] + state.policy.rules[index + 1..], expectedRevision);
    }

    method ConfigureSystem(
      expectedRevision: int, enabled: bool, controls: seq<R.SourceInput>, ttlSeconds: int,
      includeCaller: bool, caller: R.SourceInput)
      returns (outcome: Outcome)
      requires Valid()
      modifies this, kernel
      ensures Valid() && Follows(old(state), old(committed), expectedRevision, outcome)
      ensures old(kernel.inspections) <= kernel.inspections && kernel.faults >= old(kernel.faults)
      ensures kernel.faults == old(kernel.faults) ==>
        Answered(outcome, old(state), old(kernel.table), expectedRevision, None,
                 CanConfigure(enabled, controls + (if includeCaller && !caller.Blank? then [caller] else []), ttlSeconds))
      ensures old(sighted) && OpeningSeen(old(kernel.inspections), kernel.inspections) ==> sighted
      ensures sighted && outcome.Done? ==> kernel.table == Desired(state.policy, port)
      ensures outcome.Done? ==>
        && state.policy.rules == old(state.policy.rules)
        && state.policy.system.enabled == enabled
        && state.policy.system.grantTtlSeconds == EffectiveTtl(ttlSeconds)
        && R.IsSourceList(
             controls + (if includeCaller && !caller.Blank? then [caller] else []),
             state.policy.system.controlSources)
        && (!enabled ==> grants == map[])
      // TTL not lowered, and either protection stays on or the switch off went through.
      ensures old(Covered()) && (enabled || outcome.Done?) && TtlKept(old(state)) ==> Covered()
    {
      hide Core, Desired, Covered, R.NormalSources, R.IsSourceList, R.SystemAcceptable, CanConfigure, Drifted;
      outcome := PrepareMutation(expectedRevision);
      if outcome.Failed? {
        return;
      }
      var sources := controls + if includeCaller && !caller.Blank? then [caller] else [];
      var system := BuildSystem(enabled, sources, ttlSeconds);
      if system.Err? {
        return Failed(Invalid(system.error));
      }
      outcome := CommitSystem(system.value, expectedRevision);
    }

    /** The settings a request asks for, checked: usable sources, a TTL in range, and a source left while
        protection is on. */
    method BuildSystem(enabled: bool, sources: seq<R.SourceInput>, ttlSeconds: int) returns (system: R.Result<System>)
      ensures system.Ok? <==> CanConfigure(enabled, sources, ttlSeconds)
      ensures system.Ok? ==> system.value == System(enabled, system.value.controlSources, EffectiveTtl(ttlSeconds))
      ensures system.Ok? ==> R.IsSourceList(sources, system.value.controlSources) && R.NormalSources(system.value.controlSources)
      ensures system.Ok? ==> R.SystemAcceptable(system.value)
    {
      hide R.NormalSources, R.IsSourceList, R.UsableSource;
      var normalized := R.NormalizeSources(sources, false);
      if normalized.Err? {
        return R.Err(normalized.error);
      }
      R.SourceListIsNormal(sources, normalized.value);
      var ttl := EffectiveTtl(ttlSeconds);
      if ttl < 60 || ttl > 3600 {
        return R.Err(R.InvalidSystem);
      }
      if enabled && |normalized.value| == 0 {
        return R.Err(R.LockoutRisk);
      }
      SettingsAreAcceptable(System(enabled, normalized.value, ttl));
      return R.Ok(System(enabled, normalized.value, ttl));
    }

    lemma SettingsAreAcceptable(system: System)
      requires R.NormalSources(system.controlSources) && 60 <= system.grantTtlSeconds <= 3600
      requires system.enabled ==> system.controlSources != []
      ensures R.SystemAcceptable(system)
    {
      hide R.NormalSources, R.UsableSource;
      NormalAreUsable(system.controlSources);
    }

    ghost predicate TtlKept(before: PersistedState)
      reads `state
    {
      state.policy.system.grantTtlSeconds >= before.policy.system.grantTtlSeconds
    }

    lemma SoundIffAcceptable(system: System)
      requires Core()
      ensures Sound(state.(policy := state.policy.(system := system), revision := state.revision + 1)) <==> R.SystemAcceptable(system)
    {
      hide R.NormalRule, R.AcceptableInput, PairwiseDisjoint, Protected, R.SystemAcceptable;
      RecordedIsSound();
    }

    lemma RecordedIsSound()
      requires Core()
      ensures Sound(state)
    {
      hide R.NormalRule, R.AcceptableInput, PairwiseDisjoint, Protected, R.SystemAcceptable;
      RecordedSystemIsAcceptable();
      forall i | 0 <= i < |state.policy.rules|
        ensures R.AcceptableInput(state.policy.rules[i].id, R.AsInput(state.policy.rules[i]), port)
      {
        R.NormalRuleIsAcceptable(state.policy.rules[i], port);
      }
    }

    /** The end of ConfigureSystem: the next revision with other system settings; switching protection
        off forgets the grants. */
    method CommitSystem(system: System, expectedRevision: int) returns (outcome: Outcome)
      requires Valid() && expectedRevision == state.revision && R.NormalSources(system.controlSources)
      modifies this, kernel
      ensures Valid() && Follows(old(state), old(committed), expectedRevision, outcome)
      ensures old(kernel.inspections) <= kernel.inspections && kernel.faults >= old(kernel.faults)
      ensures outcome.Failed? && outcome.error.Invalid? <==> !R.SystemAcceptable(system)
      ensures outcome.Failed? && !outcome.error.Invalid? ==>
        kernel.faults > old(kernel.faults) || old(tablePresent != kernel.table.Some?)
      ensures old(sighted && tablePresent == kernel.table.Some?) ==> sighted
      ensures sighted && outcome.Done? ==> kernel.table == Desired(state.policy, port)
      ensures outcome.Done? ==> state.policy == old(state.policy).(system := system)
      ensures outcome.Done? && !system.enabled ==> grants == map[]
      ensures outcome.Failed? || system.enabled ==> grants == old(grants)
      ensures old(Covered()) && (system.enabled || outcome.Done?) && TtlKept(old(state)) ==> Covered()
    {
      hide StateOk, WellKept, Desired, R.NormalRule, R.NormalSources, GrantsCovered, GrantsWithinTtl, Sound, R.SystemAcceptable;
      RecordedIsNormal();
      SoundIffAcceptable(system);
      outcome := ApplyCandidate(state.(policy := state.policy.(system := system), revision := state.revision + 1));
      if TtlKept(old(state)) {
        WithinLaterTtl(grants, old(state.policy.system.grantTtlSeconds), old(kernel.clock),
                       state.policy.system.grantTtlSeconds, kernel.clock);
      }
      if outcome.Done? {
        committed := committed + [expectedRevision];
        if !system.enabled {
          grants := map[];
        }
      }
      NoGrants(kernel.elements, state.policy.system.grantTtlSeconds, kernel.clock);
    }

    /** Restores a recorded state whose table is gone, under the same revision; an existing table is
        never touched. A missing table that could be inspected is afterwards the desired one, unless
        restoring it failed; and if no call fails, it is restored. */
    method Initialize() returns (outcome: Outcome)
      requires Valid()
      modifies this, kernel
      ensures Valid() && committed == old(committed)
      ensures state.policy == old(state.policy) && state.revision == old(state.revision)
      ensures old(kernel.inspections) <= kernel.inspections && kernel.faults >= old(kernel.faults)
      ensures old(sighted) ==> sighted
      ensures old(kernel.table).Some? ==> kernel.table == old(kernel.table)
      ensures |kernel.inspections| > |old(kernel.inspections)| || kernel.faults > old(kernel.faults)
      ensures outcome.Done? && OpeningInspected(old(kernel.inspections), kernel.inspections) && old(kernel.table).None? ==>
        kernel.table == Desired(state.policy, port)
      ensures kernel.faults == old(kernel.faults) ==> outcome.Done? && OpeningInspected(old(kernel.inspections), kernel.inspections)
    {
      hide Core, Desired, R.NormalRule, R.NormalSources, GrantsCovered, Sound;
      RecordedIsNormal();
      RecordedIsSound();
      var supported := PrepareBackend();
      if !supported {
        tablePresent, drift := false, false;
        return Done;
      }
      RefreshObserved();
      if lastError {
        return Done;
      }
      NothingDesired(state.policy, port);
      var active := StateActive(state.policy);
      if active && !tablePresent {
        outcome := ApplyCandidate(state);
        if outcome.Failed? {
          lastError := true;
        }
        return;
      }
      return Done;
    }

    // ----- temporary grants

    lemma UnexpiredIsSmaller(all: map<GrantKey, Grant>, now: int)
      ensures |Unexpired(all, now)| <= |all|
    {
      var kept := Unexpired(all, now);
      assert kept.Keys <= all.Keys;
      SubsetIsSmaller(kept.Keys, all.Keys);
      assert |kept| == |kept.Keys| && |all| == |all.Keys|;
    }

    lemma SubsetIsSmaller<T>(a: set<T>, b: set<T>)
      requires a <= b
      ensures |a| <= |b|
    {
      assert b == a + (b - a);
    }

    /** What a status page shows: a refresh, and the grants that have not expired. Without a backend
        nothing is inspected and no drift is reported. */
    method View() returns (supported: bool)
      requires Valid()
      modifies this`lastError, this`tablePresent, this`observedHash, this`drift, this`grants, kernel`inspections, kernel`faults
      ensures Valid() && grants == Unexpired(old(grants), kernel.clock)
      ensures old(kernel.inspections) <= kernel.inspections && kernel.faults >= old(kernel.faults)
      ensures kernel.faults == old(kernel.faults) ==>
        supported && !lastError && tablePresent == kernel.table.Some? && (drift <==> Drifted(state, kernel.table))
      ensures old(Covered()) ==> Covered()
      ensures supported && !lastError && !drift && sighted ==> kernel.table == Desired(state.policy, port)
      ensures !supported ==> !drift && !tablePresent
    {
      hide Core, GrantsCovered, GrantsWithinTtl, Desired, Drifted;
      supported := PrepareBackend();
      if supported {
        RefreshObserved();
      } else {
        tablePresent, drift := false, false;
      }
      if old(Covered()) {
        ExpiringKeepsCover(
          grants, kernel.elements, kernel.clock, kernel.clock, state.policy.system.grantTtlSeconds);
      }
      ExpireGrants(kernel.clock);
    }

    /** Where the table is the desired one and protection is on, the grant sets are there. */
    lemma DesiredHasGrantSets()
      requires state.policy.system.enabled && kernel.table == Desired(state.policy, port)
      ensures kernel.HasGrantSets()
    {
    }

    /** Grants a source access to the daemon port for one TTL. */
    method GrantDirectAccess(source: Option<P.Address>, sessionID: string, ticketID: string) returns (outcome: Outcome)
      requires Valid()
      modifies this, kernel
      ensures Valid() && state == old(state) && committed == old(committed) && sighted == old(sighted)
      ensures old(kernel.inspections) <= kernel.inspections && kernel.faults >= old(kernel.faults)
      ensures kernel.table == old(kernel.table) && kernel.clock >= old(kernel.clock)
      ensures old(Covered()) ==> Covered()
      ensures !state.policy.system.enabled ==> outcome.Done?
      ensures !state.policy.system.enabled || source.None? || R.IsLoopback(source.value) ==>
        grants == old(grants) && kernel.elements == old(kernel.elements)
      ensures outcome.Failed? ==> kernel.elements == old(kernel.elements)
      ensures outcome.Failed? ==> grants == old(grants) || grants == Unexpired(old(grants), old(kernel.clock))
      ensures kernel.faults == old(kernel.faults) && state.policy.system.enabled ==>
        outcome == GrantAnswer(state, kernel.table, old(grants), old(kernel.clock), source, sessionID, ticketID)
      ensures kernel.faults == old(kernel.faults) && sighted ==> outcome != Failed(ApplyFailed)
      ensures outcome == Failed(TooManyRequests) ==>
        |Unexpired(old(grants), old(kernel.clock))| >= MAX_TEMPORARY_GRANTS
      ensures outcome.Done? && state.policy.system.enabled && source.Some? && !R.IsLoopback(source.value) ==>
        && GrantedTo(old(grants), old(kernel.clock), (source.value, sessionID, ticketID))
        && (old(GrantsCovered(grants, kernel.elements, kernel.clock)) ==>
             (GrantsCovered(grants, kernel.elements, kernel.clock) <==> NoneOutlives(source.value)))
    {
      hide Core, Desired, Covered, GrantsCovered, GrantedTo, NoneOutlives, PolicyActive, Drifted, Unexpired;
      if !state.policy.system.enabled {
        return Done;
      }
      var supported := PrepareBackend();
      if !supported {
        return Failed(Unsupported);
      }
      RefreshObserved();
      if lastError {
        return Failed(InspectFailed);
      }
      if drift {
        return Failed(Drift);
      }
      if source.None? || R.IsUnspecified(source.value) {
        return Failed(InvalidSourceIp);
      }
      if R.IsLoopback(source.value) {
        return Done;
      }
      if sighted { DesiredHasGrantSets(); }
      outcome := AddGrant(source.value, sessionID, ticketID);
    }

    /** Expiring grants, then letting time pass, keeps the rest covered. */
    lemma ExpiringKeepsCover(
      all: map<GrantKey, Grant>, elements: map<P.Address, int>, now: int, clock: int, ttl: int)
      requires now <= clock && GrantsCovered(all, elements, now) && GrantsWithinTtl(all, ttl, now)
      ensures GrantsCovered(Unexpired(all, now), elements, clock) && GrantsWithinTtl(Unexpired(all, now), ttl, clock)
    {
      forall k | k in Unexpired(all, now) ensures k in all && Unexpired(all, now)[k] == all[k] {
      }
    }

    /** A grant made at now and added to the kernel at a later instant keeps every grant covered. */
    lemma GrantingKeepsCover(
      all: map<GrantKey, Grant>, elements: map<P.Address, int>, now: int, at: int, clock: int, ttl: int,
      key: GrantKey, grant: Grant)
      requires now <= at <= clock && grant.expiresAt == now + ttl * SECOND && grant.source == key.0
      requires GrantsCovered(all, elements, now) && GrantsWithinTtl(all, ttl, now)
      ensures GrantsCovered(Unexpired(all, now)[key := grant], elements[grant.source := at + ttl * SECOND], clock)
      ensures GrantsWithinTtl(Unexpired(all, now)[key := grant], ttl, clock)
    {
      var live := Unexpired(all, now)[key := grant];
      forall k | k in live ensures live[k].expiresAt <= clock + ttl * SECOND {
        assert k != key ==> k in all && live[k] == all[k];
      }
      forall k | k in live && live[k].expiresAt > clock
        ensures live[k].source in elements[grant.source := at + ttl * SECOND]
        ensures elements[grant.source := at + ttl * SECOND][live[k].source] >= live[k].expiresAt
      {
        assert k != key ==> k in all && live[k] == all[k];
      }
    }

    method AddGrant(address: P.Address, sessionID: string, ticketID: string) returns (outcome: Outcome)
      requires Valid() && state.policy.system.enabled
      modifies this`grants, this`lastError, kernel`elements, kernel`clock, kernel`faults
      ensures Valid() && kernel.clock >= old(kernel.clock) && kernel.faults >= old(kernel.faults)
      ensures outcome.Failed? ==> kernel.elements == old(kernel.elements) && grants == Unexpired(old(grants), old(kernel.clock))
      ensures outcome == Failed(TooManyRequests) <==>
        (address, sessionID, ticketID) !in Unexpired(old(grants), old(kernel.clock)) && |Unexpired(old(grants), old(kernel.clock))| >= MAX_TEMPORARY_GRANTS
      ensures kernel.faults == old(kernel.faults) ==>
        outcome == AddAnswer(kernel.table, Unexpired(old(grants), old(kernel.clock)), (address, sessionID, ticketID))
      ensures old(Covered()) ==> Covered()
      ensures outcome.Done? ==> GrantedTo(old(grants), old(kernel.clock), (address, sessionID, ticketID))
      ensures outcome.Done? && old(GrantsCovered(grants, kernel.elements, kernel.clock)) ==>
        (GrantsCovered(grants, kernel.elements, kernel.clock) <==> NoneOutlives(address))
    {
      hide Core, GrantsCovered, GrantsWithinTtl, GrantedTo, NoneOutlives, Unexpired;
      var now := kernel.clock;
      ExpireGrants(now);
      var key := (address, sessionID, ticketID);
      if old(Covered()) {
        ExpiringKeepsCover(old(grants), kernel.elements, now, now, state.policy.system.grantTtlSeconds);
      }
      if key !in grants && |grants| >= MAX_TEMPORARY_GRANTS {
        return Failed(TooManyRequests);
      }
      var ttl := state.policy.system.grantTtlSeconds;
      var grant := Grant(address, sessionID, ticketID, now + ttl * SECOND);
      var ok, at := kernel.AddGrant(address, ttl);
      if !ok {
        lastError := true;
        if old(Covered()) { ExpiringKeepsCover(old(grants), kernel.elements, now, kernel.clock, ttl); }
        return Failed(ApplyFailed);
      }
      if old(Covered()) {
        GrantingKeepsCover(old(grants), old(kernel.elements), now, at, kernel.clock, ttl, key, grant);
      }
      StoreGrant(key, grant);
      GrantIsRecorded(old(grants), old(kernel.elements), now, at, key, grant);
      return Done;
    }

    lemma GrantIsRecorded(before: map<GrantKey, Grant>, elements: map<P.Address, int>, now: int, at: int, key: GrantKey, grant: Grant)
      requires grants == Unexpired(before, now)[key := grant] && grant.source == key.0
      requires var ttl := state.policy.system.grantTtlSeconds * SECOND;
        grant.expiresAt == now + ttl && kernel.elements == elements[key.0 := at + ttl] && now <= at <= kernel.clock
      ensures GrantedTo(before, now, key)
      ensures GrantsCovered(before, elements, now) ==>
        (GrantsCovered(grants, kernel.elements, kernel.clock) <==> NoneOutlives(key.0))
    {
      hide GrantsCovered, GrantedTo;
      GrantIsNew(before, now, at, key, grant);
      if GrantsCovered(before, elements, now) {
        OthersStayCovered(before, elements, now, kernel.clock, key, grant);
        RenewalCoversIff(grants, elements, kernel.clock, key.0, at + state.policy.system.grantTtlSeconds * SECOND);
      }
    }

    lemma GrantIsNew(before: map<GrantKey, Grant>, now: int, at: int, key: GrantKey, grant: Grant)
      requires grants == Unexpired(before, now)[key := grant]
      requires var ttl := state.policy.system.grantTtlSeconds * SECOND;
        grant.expiresAt == now + ttl && key.0 in kernel.elements && kernel.elements[key.0] == at + ttl && now <= at <= kernel.clock
      ensures GrantedTo(before, now, key)
    {
    }

    lemma OthersStayCovered(
      all: map<GrantKey, Grant>, elements: map<P.Address, int>, now: int, clock: int, key: GrantKey, grant: Grant)
      requires now <= clock && GrantsCovered(all, elements, now) && grant.source == key.0
      ensures var live := Unexpired(all, now)[key := grant];
        forall k :: k in live && live[k].source != key.0 && live[k].expiresAt > clock ==>
          live[k].source in elements && elements[live[k].source] >= live[k].expiresAt
    {
    }

    /** No unexpired grant of an address is recorded for longer than the kernel now keeps it. */
    ghost predicate NoneOutlives(a: P.Address)
      reads `grants, kernel`elements, kernel`clock
    {
      a in kernel.elements &&
      forall k :: k in grants && grants[k].source == a && grants[k].expiresAt > kernel.clock ==>
        grants[k].expiresAt <= kernel.elements[a]
    }

    method StoreGrant(key: GrantKey, grant: Grant)
      requires Valid() && state.policy.system.enabled && (key in grants || |grants| < MAX_TEMPORARY_GRANTS)
      requires grant.source == key.0 && grant.sessionID == key.1
      modifies this`grants
      ensures Valid() && grants == old(grants)[key := grant]
    {
      hide StateOk, HistoryOk, WellKept;
      OneMoreIsWellKept(grants, key, grant);
      grants := grants[key := grant];
    }

    lemma OneMoreIsWellKept(all: map<GrantKey, Grant>, key: GrantKey, grant: Grant)
      requires WellKept(all) && (key in all || |all| < MAX_TEMPORARY_GRANTS)
      requires grant.source == key.0 && grant.sessionID == key.1
      ensures WellKept(all[key := grant])
    {
      OneMoreGrant(all, key, grant);
    }

    lemma OneMoreGrant(all: map<GrantKey, Grant>, key: GrantKey, grant: Grant)
      ensures |all[key := grant]| == |all| + (if key in all then 0 else 1)
    {
      assert key in all ==> all.Keys == all[key := grant].Keys;
      assert |all[key := grant]| == |all[key := grant].Keys| && |all| == |all.Keys|;
      assert key !in all ==> all[key := grant].Keys == all.Keys + {key};
    }

    /** The grant under key runs a full TTL from an instant not before since, the kernel set holds its
        address at least as long, and no other grant was added or changed. */
    ghost predicate GrantedTo(before: map<GrantKey, Grant>, since: int, key: GrantKey)
      reads `state, `grants, kernel`elements, kernel`clock
    {
      && key in grants
      && since + state.policy.system.grantTtlSeconds * SECOND <= grants[key].expiresAt
      && key.0 in kernel.elements && kernel.elements[key.0] >= grants[key].expiresAt
      && kernel.elements[key.0] <= kernel.clock + state.policy.system.grantTtlSeconds * SECOND
      && (forall k :: k in grants && k != key ==> k in before && grants[k] == before[k])
    }

    /** Ends a session's grants. Of the addresses they name, exactly those that no remaining grant
        uses leave the kernel set. */
    method RevokeSessionGrants(sessionID: string) returns (outcome: Outcome)
      requires Valid()
      modifies this, kernel
      ensures Valid() && state == old(state) && committed == old(committed) && sighted == old(sighted)
      ensures old(kernel.inspections) <= kernel.inspections && kernel.faults >= old(kernel.faults)
      ensures kernel.table == old(kernel.table) && kernel.clock >= old(kernel.clock)
      ensures sessionID == "" ==> outcome.Done? && grants == old(grants) && kernel.elements == old(kernel.elements)
      ensures outcome.Failed? ==> grants == Unexpired(old(grants), old(kernel.clock))
      ensures !state.policy.system.enabled ==> outcome.Done? && kernel.elements == old(kernel.elements)
      ensures kernel.faults == old(kernel.faults) ==> (outcome.Failed? <==>
        sessionID != "" && state.policy.system.enabled && Drifted(state, kernel.table))
      ensures outcome.Done? && sessionID != "" ==>
        var live := Unexpired(old(grants), old(kernel.clock));
        && grants == OtherSessions(live, sessionID)
        && (state.policy.system.enabled ==> kernel.elements == old(kernel.elements) - Orphaned(live, sessionID))
      ensures outcome.Done? && old(Covered()) ==> Covered()
    {
      hide Core, Unexpired, OtherSessions, Orphaned, GrantsCovered, GrantsWithinTtl, Drifted;
      if sessionID == "" {
        return Done;
      }
      ExpireGrants(kernel.clock);
      outcome := RevokeUnexpired(sessionID);
      if old(Covered()) && outcome.Done? {
        if state.policy.system.enabled {
          RevokingKeepsCover(
            old(grants), Unexpired(old(grants), old(kernel.clock)), old(kernel.elements),
            old(kernel.clock), kernel.clock, sessionID, state.policy.system.grantTtlSeconds);
        }
      }
    }

    method ExpireGrants(now: int)
      requires Valid()
      modifies this`grants
      ensures Valid() && grants == Unexpired(old(grants), now)
    {
      hide StateOk, HistoryOk;
      UnexpiredIsSmaller(grants, now);
      grants := Unexpired(grants, now);
    }

    lemma OtherSessionsAreWellKept(all: map<GrantKey, Grant>, sessionID: string)
      requires WellKept(all)
      ensures WellKept(OtherSessions(all, sessionID)) && (all == map[] ==> OtherSessions(all, sessionID) == map[])
    {
      var kept := OtherSessions(all, sessionID);
      SubsetIsSmaller(kept.Keys, all.Keys);
      assert |kept| == |kept.Keys| && |all| == |all.Keys|;
    }

    method RevokeUnexpired(sessionID: string) returns (outcome: Outcome)
      requires Valid()
      modifies this`grants, this`lastError, this`tablePresent, this`observedHash, this`drift
      modifies kernel`elements, kernel`clock, kernel`inspections, kernel`faults
      ensures Valid() && kernel.clock >= old(kernel.clock) && old(kernel.inspections) <= kernel.inspections
      ensures kernel.faults >= old(kernel.faults)
      ensures !state.policy.system.enabled ==> outcome.Done? && kernel.elements == old(kernel.elements)
      ensures kernel.faults == old(kernel.faults) ==> (outcome.Failed? <==> state.policy.system.enabled && Drifted(state, kernel.table))
      ensures outcome.Failed? ==> grants == old(grants)
      ensures outcome.Done? ==> grants == OtherSessions(old(grants), sessionID)
      ensures outcome.Done? && state.policy.system.enabled ==>
        kernel.elements == old(kernel.elements) - Orphaned(old(grants), sessionID)
    {
      hide Core, Desired, OtherSessions, SessionSources, Unused, Drifted;
      var candidate := OtherSessions(grants, sessionID);
      if !state.policy.system.enabled {
        ForgetSession(sessionID);
        return Done;
      }
      var supported := PrepareBackend();
      if !supported {
        return Failed(Unsupported);
      }
      RefreshObserved();
      if lastError {
        return Failed(InspectFailed);
      }
      if drift {
        return Failed(Drift);
      }
      var removed := RemoveUnused(candidate, SessionSources(grants, sessionID));
      if !removed {
        lastError := true;
        return Failed(ApplyFailed);
      }
      ForgetSession(sessionID);
      return Done;
    }

    method ForgetSession(sessionID: string)
      requires Valid()
      modifies this`grants
      ensures Valid() && grants == OtherSessions(old(grants), sessionID)
    {
      hide StateOk, HistoryOk, WellKept, OtherSessions;
      OtherSessionsAreWellKept(grants, sessionID);
      grants := OtherSessions(grants, sessionID);
    }

    function OtherSessions(all: map<GrantKey, Grant>, sessionID: string): map<GrantKey, Grant> {
      map k | k in all && all[k].sessionID != sessionID :: all[k]
    }

    function SessionSources(all: map<GrantKey, Grant>, sessionID: string): set<P.Address> {
      set k | k in all && all[k].sessionID == sessionID :: all[k].source
    }

    /** The addresses of a session's grants that no other session's grant uses. */
    function Orphaned(live: map<GrantKey, Grant>, sessionID: string): set<P.Address> {
      Unused(OtherSessions(live, sessionID), SessionSources(live, sessionID))
    }

    function Unused(all: map<GrantKey, Grant>, sources: set<P.Address>): set<P.Address> {
      set a | a in sources && !HasAnyGrantForSource(all, a)
    }

    lemma RevokingKeepsCover(all: map<GrantKey, Grant>, live: map<GrantKey, Grant>, elements: map<P.Address, int>,
                             before: int, now: int, sessionID: string, ttl: int)
      requires live == Unexpired(all, before) && before <= now
      requires GrantsCovered(all, elements, before) && GrantsWithinTtl(all, ttl, before)
      ensures GrantsWithinTtl(OtherSessions(live, sessionID), ttl, now)
      ensures GrantsCovered(OtherSessions(live, sessionID), elements - Orphaned(live, sessionID), now)
    {
      var rest := OtherSessions(live, sessionID);
      forall k | k in rest && rest[k].expiresAt > now
        ensures rest[k].source in elements - Orphaned(live, sessionID)
      {
        assert k in all && all[k] == rest[k];
        assert HasAnyGrantForSource(rest, rest[k].source);
      }
    }

    predicate HasAnyGrantForSource(all: map<GrantKey, Grant>, source: P.Address) {
      exists k :: k in all && all[k].source == source
    }

    method RemoveUnused(candidate: map<GrantKey, Grant>, sources: set<P.Address>) returns (ok: bool)
      modifies kernel`elements, kernel`clock, kernel`faults
      ensures kernel.clock >= old(kernel.clock) && kernel.faults == old(kernel.faults) + if ok then 0 else 1
      ensures ok ==>
        kernel.elements == old(kernel.elements) - Unused(candidate, sources)
    {
      var todo := sources;
      while todo != {}
        invariant todo <= sources
        invariant kernel.clock >= old(kernel.clock) && kernel.faults == old(kernel.faults)
        invariant kernel.elements ==
          old(kernel.elements) - Unused(candidate, sources - todo)
      {
        var source :| source in todo;
        todo := todo - {source};
        if HasAnyGrantForSource(candidate, source) {
          continue;
        }
        ok := kernel.RemoveGrant(source);
        if !ok {
          return false;
        }
      }
      return true;
    }
  }

  // ----- whole runs

  datatype Request =
    | Create(revision: int, id: Option<string>, rule: R.RuleInput)
    | Update(revision: int, ruleID: string, rule: R.RuleInput)
    | Delete(revision: int, ruleID: string)
    | Configure(revision: int, enabled: bool, controls: seq<R.SourceInput>, ttlSeconds: int)
    | Ask(source: Option<P.Address>, session: string, ticket: string)
    | Revoke(session: string)
    | Look
    | Outside(table: Option<Fingerprint>, elements: map<P.Address, int>)
    | Wait

  predicate IsMutation(request: Request) {
    request.Create? || request.Update? || request.Delete? || request.Configure?
  }

  /** What a run is followed by, from one request to the next. */
  datatype Moment = Moment(port: int, state: PersistedState, table: Option<Fingerprint>, inspections: seq<bool>, faults: nat,
                           grants: map<GrantKey, Grant>, clock: int)

  ghost function Now(service: Service): Moment
    reads service`state, service`grants, service.kernel
  {
    Moment(service.port, service.state, service.kernel.table, service.kernel.inspections, service.kernel.faults,
           service.grants, service.kernel.clock)
  }

  predicate Commits(request: Request, outcome: Outcome) {
    IsMutation(request) && outcome.Done?
  }

  /** What a mutation asks for, done to the policy. */
  ghost predicate Carried(request: Request, before: Policy, after: Policy) {
    match request
    case Create(_, id, rule) => after.system == before.system && id.Some? && Created(before.rules, after.rules, id.value, rule)
    case Update(_, id, rule) => after.system == before.system && Updated(before.rules, after.rules, id, rule)
    case Delete(_, id) => after.system == before.system && Deleted(before.rules, after.rules, id)
    case Configure(_, enabled, controls, ttl) =>
      && after.rules == before.rules && after.system.enabled == enabled && after.system.grantTtlSeconds == EffectiveTtl(ttl)
      && R.IsSourceList(controls, after.system.controlSources)
    case _ => after == before
  }

  /** What a mutation asks for can be done to the policy. */
  ghost predicate Possible(request: Request, policy: Policy, daemonPort: int) {
    match request
    case Create(_, id, rule) => CanCreate(policy.rules, id, rule, daemonPort)
    case Update(_, id, rule) => CanUpdate(policy.rules, id, rule, daemonPort)
    case Delete(_, id) => C.HasRule(policy.rules, id)
    case Configure(_, enabled, controls, ttl) => CanConfigure(enabled, controls, ttl)
    case _ => true
  }

  /** A mutation that commits carried the revision it met, raised it by one and did what it asks for;
      nothing else touches the revision or the policy. If no call fails, a mutation commits exactly if
      nobody has edited the table, its revision is current and what it asks for is possible. */
  ghost predicate Stepped(request: Request, outcome: Outcome, before: Moment, after: Moment) {
    && after.port == before.port
    && after.state.revision == before.state.revision + (if Commits(request, outcome) then 1 else 0)
    && (Commits(request, outcome) ==> request.revision == before.state.revision)
    && (if Commits(request, outcome) then Carried(request, before.state.policy, after.state.policy)
        else after.state.policy == before.state.policy)
    && before.inspections <= after.inspections && before.faults <= after.faults
    && (IsMutation(request) && after.faults == before.faults ==>
         (outcome.Done? <==>
            Ready(before.state, before.table, request.revision) && Possible(request, before.state.policy, before.port)))
    && (request.Ask? && before.state.policy.system.enabled ==> Asked(request, outcome, before, after))
    && (request.Revoke? && request.session != "" && outcome.Done? ==>
         forall k :: k in after.grants ==> after.grants[k].sessionID != request.session)
  }

  /** Access was granted for one TTL; if no call fails the answer is the one of the checks. */
  ghost predicate Asked(request: Request, outcome: Outcome, before: Moment, after: Moment)
    requires request.Ask?
  {
    && (after.faults == before.faults ==>
         outcome == GrantAnswer(before.state, before.table, before.grants, before.clock, request.source, request.session, request.ticket))
    && (outcome.Done? && request.source.Some? && !R.IsLoopback(request.source.value) ==>
         var key := (request.source.value, request.session, request.ticket);
         && key in after.grants
         && after.grants[key].expiresAt >= before.clock + before.state.policy.system.grantTtlSeconds * SECOND)
  }

  /** A request after which the grants are covered if they were: nobody else edits, the TTL is not
      lowered, and neither a revocation nor a switching off has failed half way. */
  predicate Calm(request: Request, outcome: Outcome, before: Moment, after: Moment) {
    match request
    case Configure(_, enabled, _, _) => 
      (enabled || outcome.Done?) && before.state.policy.system.grantTtlSeconds <= after.state.policy.system.grantTtlSeconds
    case Revoke(_) => outcome.Done?
    case Outside(_, _) => false
    case _ => true
  }

  /** A mutation could inspect the table when it began; other requests do not matter. */
  predicate Seen(request: Request, before: Moment, after: Moment) {
    IsMutation(request) ==> Service.OpeningSeen(before.inspections, after.inspections)
  }

  method Answer(service: Service, request: Request) returns (outcome: Outcome)
    requires service.Valid()
    modifies service, service.kernel
    ensures service.Valid() && Stepped(request, outcome, old(Now(service)), Now(service))
    ensures old(service.Covered()) && Calm(request, outcome, old(Now(service)), Now(service)) ==> service.Covered()
    ensures old(service.sighted) && Seen(request, old(Now(service)), Now(service)) ==> service.sighted
    ensures Commits(request, outcome) && service.sighted ==>
      service.kernel.table == Desired(service.state.policy, service.port)
  {
    hide Desired, Service.Valid, Service.Covered, Possible, Carried, Drifted;
    match request
    case Ask(source, session, ticket) => outcome := GrantTo(service, request);
    case Revoke(session) => outcome := EndSession(service, request);
    case Look => var _ := service.View(); outcome := Done;
    case Outside(table, elements) => service.kernel.OutsideEdit(table, elements); outcome := Done;
    case Wait => Pass(service); outcome := Done;
    case _ => outcome := Mutate(service, request);
  }

  method Mutate(service: Service, request: Request) returns (outcome: Outcome)
    requires service.Valid() && IsMutation(request)
    modifies service, service.kernel
    ensures service.Valid() && Stepped(request, outcome, old(Now(service)), Now(service))
    ensures old(service.Covered()) && Calm(request, outcome, old(Now(service)), Now(service)) ==> service.Covered()
    ensures old(service.sighted) && Seen(request, old(Now(service)), Now(service)) ==> service.sighted
    ensures outcome.Done? && service.sighted ==> service.kernel.table == Desired(service.state.policy, service.port)
  {
    hide Desired, Service.Valid, Service.Covered, Created, Updated, Deleted, R.IsSourceList;
    hide CanConfigure, C.HasRule, HasRoom, R.AcceptableInput, Drifted;
    match request
    case Create(revision, id, rule) => outcome := service.CreateRule(revision, id, rule);
    case Update(revision, id, rule) => outcome := service.UpdateRule(revision, id, rule);
    case Delete(revision, id) => outcome := service.DeleteRule(revision, id);
    case Configure(revision, enabled, controls, ttl) =>
      assert controls + [] == controls;
      outcome := service.ConfigureSystem(revision, enabled, controls, ttl, false, R.Blank);
  }

  method GrantTo(service: Service, request: Request) returns (outcome: Outcome)
    requires service.Valid() && request.Ask?
    modifies service, service.kernel
    ensures service.Valid() && service.sighted == old(service.sighted)
    ensures Stepped(request, outcome, old(Now(service)), Now(service))
    ensures old(service.Covered()) ==> service.Covered()
  {
    hide Desired, Service.Valid, Service.Covered, Service.NoneOutlives, GrantsCovered, Unexpired, Drifted, GrantAnswer;
    outcome := service.GrantDirectAccess(request.source, request.session, request.ticket);
  }

  method EndSession(service: Service, request: Request) returns (outcome: Outcome)
    requires service.Valid() && request.Revoke?
    modifies service, service.kernel
    ensures service.Valid() && service.sighted == old(service.sighted)
    ensures Stepped(request, outcome, old(Now(service)), Now(service))
    ensures old(service.Covered()) && outcome.Done? ==> service.Covered()
  {
    hide Desired, Service.Valid, Service.Covered, Unexpired, Drifted, Service.Orphaned;
    outcome := service.RevokeSessionGrants(request.session);
  }

  method Pass(service: Service)
    requires service.Valid()
    modifies service.kernel`clock
    ensures service.Valid() && (old(service.Covered()) ==> service.Covered())
  {
    service.kernel.Elapse();
  }

  ghost predicate IsTrace(requests: seq<Request>, outcomes: seq<Outcome>, moments: seq<Moment>) {
    && |outcomes| == |requests| && |moments| == |requests| + 1
    && forall i :: 0 <= i < |requests| ==> Stepped(requests[i], outcomes[i], moments[i], moments[i + 1])
  }

  ghost predicate AllCalm(requests: seq<Request>, outcomes: seq<Outcome>, moments: seq<Moment>)
    requires IsTrace(requests, outcomes, moments)
  {
    forall i :: 0 <= i < |requests| ==> Calm(requests[i], outcomes[i], moments[i], moments[i + 1])
  }

  predicate AllSeen(requests: seq<Request>, moments: seq<Moment>)
    requires |moments| == |requests| + 1
  {
    forall i :: 0 <= i < |requests| ==> Seen(requests[i], moments[i], moments[i + 1])
  }

  function CountCommits(requests: seq<Request>, outcomes: seq<Outcome>): nat
    requires |outcomes| == |requests|
  {
    if requests == [] then 0 else
      var n := |requests| - 1;
      CountCommits(requests[..n], outcomes[..n]) + (if Commits(requests[n], outcomes[n]) then 1 else 0)
  }

  lemma TraceBefore(requests: seq<Request>, outcomes: seq<Outcome>, moments: seq<Moment>)
    requires |requests| > 0 && IsTrace(requests, outcomes, moments)
    ensures var n := |requests| - 1; IsTrace(requests[..n], outcomes[..n], moments[..n + 1])
  {
  }

  /** The revision counts the mutations that committed. */
  lemma {:induction false} RevisionCountsCommits(requests: seq<Request>, outcomes: seq<Outcome>, moments: seq<Moment>)
    requires IsTrace(requests, outcomes, moments)
    ensures moments[|requests|].state.revision == moments[0].state.revision + CountCommits(requests, outcomes)
    decreases |requests|
  {
    if requests != [] {
      var n := |requests| - 1;
      TraceBefore(requests, outcomes, moments);
      RevisionCountsCommits(requests[..n], outcomes[..n], moments[..n + 1]);
      assert Stepped(requests[n], outcomes[n], moments[n], moments[n + 1]);
    }
  }

  lemma {:induction false} RevisionRises(requests: seq<Request>, outcomes: seq<Outcome>, moments: seq<Moment>, i: nat, j: nat)
    requires IsTrace(requests, outcomes, moments) && i <= j <= |requests|
    ensures moments[i].state.revision <= moments[j].state.revision
    decreases j - i
  {
    if i < j {
      assert Stepped(requests[i], outcomes[i], moments[i], moments[i + 1]);
      RevisionRises(requests, outcomes, moments, i + 1, j);
    }
  }

  /** Of two mutations that carry the same expected revision at most one commits. */
  lemma CommitsDiffer(requests: seq<Request>, outcomes: seq<Outcome>, moments: seq<Moment>, i: nat, j: nat)
    requires IsTrace(requests, outcomes, moments) && i < j < |requests|
    requires Commits(requests[i], outcomes[i]) && Commits(requests[j], outcomes[j])
    ensures requests[i].revision < requests[j].revision
  {
    assert Stepped(requests[i], outcomes[i], moments[i], moments[i + 1]);
    assert Stepped(requests[j], outcomes[j], moments[j], moments[j + 1]);
    RevisionRises(requests, outcomes, moments, i + 1, j);
  }

  /** Whatever is requested, fails or is edited from outside, in any order, the run is a trace whose
      revisions count the committed mutations, and there are never more than 2048 grants. While all is
      calm every recorded unexpired grant is in the kernel set until it expires; while every mutation
      can inspect first, the recorded state is one that was applied knowing what was there. */
  method Serve(service: Service, requests: seq<Request>) returns (outcomes: seq<Outcome>, ghost moments: seq<Moment>)
    requires service.Valid()
    modifies service, service.kernel
    ensures service.Valid() && |service.grants| <= MAX_TEMPORARY_GRANTS
    ensures IsTrace(requests, outcomes, moments) && moments[0] == old(Now(service)) && moments[|requests|] == Now(service)
    ensures old(service.Covered()) && AllCalm(requests, outcomes, moments) ==> service.Covered()
    ensures old(service.sighted) && AllSeen(requests, moments) ==> service.sighted
  {
    hide *;
    outcomes, moments := [], [Now(service)];
    EmptyTrace(moments);
    for i := 0 to |requests|
      invariant service.Valid() && |outcomes| == i && |moments| == i + 1
      invariant IsTrace(requests[..i], outcomes, moments) && moments[0] == old(Now(service)) && moments[i] == Now(service)
      invariant old(service.Covered()) && AllCalm(requests[..i], outcomes, moments) ==> service.Covered()
      invariant old(service.sighted) && AllSeen(requests[..i], moments) ==> service.sighted
    {
      assert requests[..i + 1] == requests[..i] + [requests[i]];
      ghost var done, before := outcomes, moments;
      var outcome := Answer(service, requests[i]);
      outcomes, moments := outcomes + [outcome], moments + [Now(service)];
      TraceSnoc(requests[..i], done, before, requests[i], outcome, Now(service));
      if AllCalm(requests[..i + 1], outcomes, moments) {
        CalmBefore(requests[..i], done, before, requests[i], outcome, Now(service));
      }
      if AllSeen(requests[..i + 1], moments) { SeenBefore(requests[..i], before, requests[i], Now(service)); }
    }
    assert requests[..|requests|] == requests;
    service.GrantsBounded();
  }

  lemma EmptyTrace(moments: seq<Moment>)
    requires |moments| == 1
    ensures IsTrace([], [], moments)
  {
  }

  lemma TraceSnoc(requests: seq<Request>, outcomes: seq<Outcome>, moments: seq<Moment>, request: Request, outcome: Outcome, last: Moment)
    requires IsTrace(requests, outcomes, moments) && Stepped(request, outcome, moments[|requests|], last)
    ensures IsTrace(requests + [request], outcomes + [outcome], moments + [last])
  {
    hide Stepped;
  }

  lemma CalmBefore(requests: seq<Request>, outcomes: seq<Outcome>, moments: seq<Moment>, request: Request, outcome: Outcome, last: Moment)
    requires IsTrace(requests, outcomes, moments) && IsTrace(requests + [request], outcomes + [outcome], moments + [last])
    requires AllCalm(requests + [request], outcomes + [outcome], moments + [last])
    ensures AllCalm(requests, outcomes, moments) && Calm(request, outcome, moments[|requests|], last)
  {
    hide Calm, Stepped;
    var n := |requests|;
    assert Calm((requests + [request])[n], (outcomes + [outcome])[n], (moments + [last])[n], (moments + [last])[n + 1]);
    forall i | 0 <= i < n ensures Calm(requests[i], outcomes[i], moments[i], moments[i + 1]) {
      assert Calm((requests + [request])[i], (outcomes + [outcome])[i], (moments + [last])[i], (moments + [last])[i + 1]);
    }
  }

  lemma SeenBefore(requests: seq<Request>, moments: seq<Moment>, request: Request, last: Moment)
    requires |moments| == |requests| + 1 && AllSeen(requests + [request], moments + [last])
    ensures AllSeen(requests, moments) && Seen(request, moments[|requests|], last)
  {
    hide Seen;
    var n := |requests|;
    assert Seen((requests + [request])[n], (moments + [last])[n], (moments + [last])[n + 1]);
    forall i | 0 <= i < n ensures Seen(requests[i], moments[i], moments[i + 1]) {
      assert Seen((requests + [request])[i], (moments + [last])[i], (moments + [last])[i + 1]);
    }
  }

  /** After a run in which every mutation could inspect first, a status that shows neither an error nor
      drift means that the installed table is the one the recorded policy asks for. */
  method Watch(service: Service, requests: seq<Request>)
    returns (outcomes: seq<Outcome>, supported: bool, ghost moments: seq<Moment>)
    requires service.Valid()
    modifies service, service.kernel
    ensures IsTrace(requests, outcomes, moments)
    ensures old(service.sighted) && AllSeen(requests, moments) && supported && !service.lastError && !service.drift ==>
      service.kernel.table == Desired(service.state.policy, service.port)
  {
    hide *;
    outcomes, moments := Serve(service, requests);
    supported := service.View();
  }
}
