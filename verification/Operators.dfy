/** The registry that merges the operator lists of several panels. Updates carry a revision per
    panel and may arrive in any order and more than once.
    daemon/internal/supervisor/operators.go:70-155, 314-432 */
module Operators {
  import opened Options
  import opened Sorting
  import Rules

  /** 32 hexadecimal digits, whose order as strings is their order as numbers. */
  type Uuid = nat
  type PanelId = nat

  datatype Entry = Entry(uuid: Uuid, name: string)

  datatype Source = Source(panel: PanelId, revision: nat, operators: seq<Entry>)

  datatype Error = InvalidRequest | StaleRevision | RevisionConflict | ConfigWriteFailed

  datatype Result<+T> = Ok(value: T) | Err(error: Error)

  /** Identifiers as they come in: absent where they are no identifiers. */
  datatype RawEntry = RawEntry(uuid: Option<Uuid>, name: string)

  datatype RawSource = RawSource(panel: Option<PanelId>, revision: nat, operators: seq<RawEntry>)

  const MAX_OPERATORS := 10000
  const MAX_NAME := 64

  function Panel(s: Source): nat { s.panel }
  function UuidOf(e: Entry): nat { e.uuid }
  predicate SourceLe(a: Source, b: Source) { a.panel <= b.panel }
  predicate EntryLe(a: Entry, b: Entry) { a.uuid <= b.uuid }

  // ----- normalisation

  ghost predicate Normal(s: Source) {
    && Strict(s.operators, UuidOf) && |s.operators| <= MAX_OPERATORS
    && forall e :: e in s.operators ==> NormalName(e.name)
  }

  ghost predicate NormalName(name: string) {
    |name| <= MAX_NAME && Rules.TrimSpace(name) == name
  }

  ghost predicate AcceptableEntry(e: RawEntry) {
    e.uuid.Some? && |Rules.TrimSpace(e.name)| <= MAX_NAME
  }

  ghost predicate Acceptable(raw: RawSource) {
    && raw.panel.Some? && |raw.operators| <= MAX_OPERATORS
    && (forall i :: 0 <= i < |raw.operators| ==> AcceptableEntry(raw.operators[i]))
    && forall i, j :: 0 <= i < j < |raw.operators| ==> raw.operators[i].uuid != raw.operators[j].uuid
  }

  function Cleaned(e: RawEntry): Entry
    requires e.uuid.Some?
  {
    Entry(e.uuid.value, Rules.TrimSpace(e.name))
  }

  /** The normal form of an acceptable update. */
  function NormalForm(raw: RawSource): Source
    requires raw.panel.Some? && forall i :: 0 <= i < |raw.operators| ==> raw.operators[i].uuid.Some?
  {
    Source(raw.panel.value, raw.revision,
           Sort(seq(|raw.operators|, i requires 0 <= i < |raw.operators| => Cleaned(raw.operators[i])), EntryLe))
  }

  method NormalizeOperatorSource(raw: RawSource) returns (result: Result<Source>)
    ensures result.Ok? <==> Acceptable(raw)
    ensures result.Ok? ==>
      && result.value == NormalForm(raw) && Normal(result.value)
      && |result.value.operators| == |raw.operators|
      && forall i :: 0 <= i < |raw.operators| ==> Cleaned(raw.operators[i]) in result.value.operators
    ensures result.Err? ==> result.error == InvalidRequest
  {
    hide Rules.TrimSpace, Sort;
    if raw.panel.None? || |raw.operators| > MAX_OPERATORS {
      return Err(InvalidRequest);
    }
    var seen: set<Uuid>, entries: seq<Entry> := {}, [];
    for i := 0 to |raw.operators|
      invariant |entries| == i && DistinctKeys(entries, UuidOf)
      invariant forall k :: 0 <= k < i ==> AcceptableEntry(raw.operators[k]) && entries[k] == Cleaned(raw.operators[k])
      invariant forall e :: e in entries ==> NormalName(e.name)
      invariant forall u :: u in seen <==> exists k :: 0 <= k < i && entries[k].uuid == u
    {
      var item := raw.operators[i];
      if item.uuid.None? {
        return Err(InvalidRequest);
      }
      if item.uuid.value in seen {
        return Err(InvalidRequest);
      }
      seen := seen + {item.uuid.value};
      var name := Rules.TrimSpace(item.name);
      if |name| > MAX_NAME {
        return Err(InvalidRequest);
      }
      Rules.TrimIsIdempotent(item.name);
      entries := entries + [Entry(item.uuid.value, name)];
    }
    SortByKeyIsStrict(entries, UuidOf, EntryLe);
    assert entries == seq(|raw.operators|, i requires 0 <= i < |raw.operators| => Cleaned(raw.operators[i]));
    result := Ok(Source(raw.panel.value, raw.revision, Sort(entries, EntryLe)));
  }

  // ----- the registry against the set of updates delivered

  /** Each panel's revision fixes its contents. */
  ghost predicate Consistent(delivered: set<Source>) {
    forall s, t :: s in delivered && t in delivered && s.panel == t.panel && s.revision == t.revision ==> s == t
  }

  /** In panel order, for each panel that delivered anything, its update with the highest revision. */
  ghost predicate IsLatest(sources: seq<Source>, delivered: set<Source>) {
    && Strict(sources, Panel)
    && (forall s :: s in sources ==> s in delivered)
    && (forall s, t :: s in sources && t in delivered && t.panel == s.panel ==> t.revision <= s.revision)
    && (forall t :: t in delivered ==> HasPanel(sources, t.panel))
  }

  ghost predicate HasPanel(sources: seq<Source>, panel: PanelId) {
    exists s :: s in sources && s.panel == panel
  }

  /** The updates delivered determine the registry: their order and repetition do not matter. */
  lemma LatestIsUnique(a: seq<Source>, b: seq<Source>, delivered: set<Source>)
    requires Consistent(delivered) && IsLatest(a, delivered) && IsLatest(b, delivered)
    ensures a == b
  {
    LatestIncluded(a, b, delivered);
    LatestIncluded(b, a, delivered);
    StrictUnique(a, b, Panel);
  }

  lemma LatestIncluded(a: seq<Source>, b: seq<Source>, delivered: set<Source>)
    requires Consistent(delivered) && IsLatest(a, delivered) && IsLatest(b, delivered)
    ensures forall s :: s in a ==> s in b
  {
    forall s | s in a ensures s in b {
      var t :| t in b && t.panel == s.panel;
      assert s.revision <= t.revision <= s.revision;
    }
  }

  // ----- the merged list

  /** The entries of all sources, in panel order. */
  function AllEntries(sources: seq<Source>): seq<Entry> {
    if sources == [] then [] else AllEntries(sources[..|sources| - 1]) + sources[|sources| - 1].operators
  }

  /** e is what the catalog shows for its UUID: the first entry with a name, or any if none has one. */
  ghost predicate Shown(all: seq<Entry>, e: Entry) {
    exists k :: 0 <= k < |all| && all[k] == e && FirstNamed(all, k)
  }

  ghost predicate FirstNamed(all: seq<Entry>, k: nat)
    requires k < |all|
  {
    if all[k].name == "" then forall j :: 0 <= j < |all| && all[j].uuid == all[k].uuid ==> all[j].name == ""
    else forall j :: 0 <= j < k && all[j].uuid == all[k].uuid ==> all[j].name == ""
  }

  ghost predicate IsCatalog(operators: seq<Entry>, all: seq<Entry>) {
    && Strict(operators, UuidOf)
    && forall e :: e in operators <==> Shown(all, e)
  }

  lemma CatalogIsUnique(a: seq<Entry>, b: seq<Entry>, all: seq<Entry>)
    requires IsCatalog(a, all) && IsCatalog(b, all)
    ensures a == b
  {
    StrictUnique(a, b, UuidOf);
  }

  /** Every operator of any source is in the catalog exactly once. */
  lemma CatalogCovers(operators: seq<Entry>, all: seq<Entry>, k: nat)
    requires IsCatalog(operators, all) && k < |all|
    ensures exists e :: e in operators && e.uuid == all[k].uuid
  {
    var j := FirstShown(all, k);
    assert Shown(all, all[j]);
  }

  lemma FirstShown(all: seq<Entry>, k: nat) returns (j: nat)
    requires k < |all|
    ensures j < |all| && all[j].uuid == all[k].uuid && FirstNamed(all, j)
  {
    j := 0;
    while j < |all| && !(all[j].uuid == all[k].uuid && all[j].name != "")
      invariant j <= |all|
      invariant forall i :: 0 <= i < j && all[i].uuid == all[k].uuid ==> all[i].name == ""
    {
      j := j + 1;
    }
    if j == |all| { j := k; }
  }

  /** The catalog entry of each UUID among the first entries. */
  ghost predicate IsMerged(merged: map<Uuid, Entry>, all: seq<Entry>) {
    && (forall u :: u in merged ==> merged[u].uuid == u && Shown(all, merged[u]))
    && (forall e :: Shown(all, e) ==> e.uuid in merged && merged[e.uuid] == e)
  }

  /** What one more entry changes. */
  lemma ShownOneMore(all: seq<Entry>, item: Entry, e: Entry)
    ensures Shown(all + [item], e) <==>
      if e.uuid != item.uuid then Shown(all, e)
      else if item.name == "" then Shown(all, e) || (e == item && !Known(all, item.uuid))
      else (Shown(all, e) && e.name != "") || (e == item && !Named(all, item.uuid))
  {
    var more := all + [item];
    assert more[|all|] == item;
    assert forall k :: 0 <= k < |all| ==> more[k] == all[k];
    forall k | 0 <= k < |all|
      ensures FirstNamed(more, k) <==>
        if all[k].name == "" && all[k].uuid == item.uuid && item.name != "" then false else FirstNamed(all, k)
    {
    }
    if Shown(more, e) {
      var k :| 0 <= k < |more| && more[k] == e && FirstNamed(more, k);
      if k < |all| { assert all[k] == e; }
    }
    if Shown(all, e) {
      var k :| 0 <= k < |all| && all[k] == e && FirstNamed(all, k);
      assert more[k] == e;
    }
  }

  ghost predicate Known(all: seq<Entry>, u: Uuid) {
    exists k :: 0 <= k < |all| && all[k].uuid == u
  }

  ghost predicate Named(all: seq<Entry>, u: Uuid) {
    exists k :: 0 <= k < |all| && all[k].uuid == u && all[k].name != ""
  }

  lemma ShownIfKnown(all: seq<Entry>, u: Uuid)
    ensures Known(all, u) <==> exists e :: Shown(all, e) && e.uuid == u
    ensures Named(all, u) <==> exists e :: Shown(all, e) && e.uuid == u && e.name != ""
  {
    if Known(all, u) {
      var k :| 0 <= k < |all| && all[k].uuid == u;
      var j := FirstShown(all, k);
      assert Shown(all, all[j]);
    }
  }

  function MergeStep(merged: map<Uuid, Entry>, item: Entry): map<Uuid, Entry> {
    if item.uuid !in merged || (merged[item.uuid].name == "" && item.name != "") then merged[item.uuid := item] else merged
  }

  lemma MergeOneMore(merged: map<Uuid, Entry>, all: seq<Entry>, item: Entry)
    requires IsMerged(merged, all)
    ensures IsMerged(MergeStep(merged, item), all + [item])
  {
    var next := MergeStep(merged, item);
    ShownIfKnown(all, item.uuid);
    assert item.uuid in merged <==> Known(all, item.uuid);
    assert item.uuid in merged && merged[item.uuid].name != "" <==> Named(all, item.uuid);
    forall u | u in next ensures next[u].uuid == u && Shown(all + [item], next[u]) {
      ShownOneMore(all, item, next[u]);
    }
    forall e | Shown(all + [item], e) ensures e.uuid in next && next[e.uuid] == e {
      ShownOneMore(all, item, e);
    }
  }

  lemma NothingMerged()
    ensures IsMerged(map[], [])
  {
  }

  method MergeOperators(sources: seq<Source>) returns (merged: map<Uuid, Entry>)
    ensures IsMerged(merged, AllEntries(sources))
  {
    hide IsMerged, MergeStep;
    merged := map[];
    NothingMerged();
    for i := 0 to |sources|
      invariant IsMerged(merged, AllEntries(sources[..i]))
    {
      var operators := sources[i].operators;
      ghost var all := AllEntries(sources[..i]);
      assert all + operators[..0] == all;
      for j := 0 to |operators|
        invariant IsMerged(merged, all + operators[..j])
      {
        MergeOneMore(merged, all + operators[..j], operators[j]);
        assert all + operators[..j + 1] == all + operators[..j] + [operators[j]];
        merged := MergeStep(merged, operators[j]);
      }
      assert sources[..i + 1][..i] == sources[..i];
      assert operators[..|operators|] == operators;
    }
    assert sources[..|sources|] == sources;
  }

  /** The values of the map in the order of their UUIDs; they come out of the map in any order. */
  method SortedEntries(merged: map<Uuid, Entry>) returns (operators: seq<Entry>)
    requires forall u :: u in merged ==> merged[u].uuid == u
    ensures Strict(operators, UuidOf)
    ensures forall e :: e in operators <==> e.uuid in merged && merged[e.uuid] == e
  {
    operators := [];
    var todo := merged.Keys;
    while todo != {}
      invariant todo <= merged.Keys
      invariant DistinctKeys(operators, UuidOf)
      invariant forall e :: e in operators <==> e.uuid in merged && e.uuid !in todo && merged[e.uuid] == e
    {
      var u :| u in todo;
      todo := todo - {u};
      operators := operators + [merged[u]];
    }
    SortByKeyIsStrict(operators, UuidOf, EntryLe);
    operators := Sort(operators, EntryLe);
  }

  // ----- the merged list in terms of the panels

  /** No source lists a UUID twice; what normalisation sees to. */
  ghost predicate EachOnce(sources: seq<Source>) {
    forall i :: 0 <= i < |sources| ==> Strict(sources[i].operators, UuidOf)
  }

  ghost predicate Names(source: Source, u: Uuid) {
    exists n :: n in source.operators && n.uuid == u && n.name != ""
  }

  /** An entry of a panel that prevails: it has a name and no panel before it names the UUID, or no
      panel names it at all. */
  ghost predicate Prevails(sources: seq<Source>, i: nat, e: Entry)
    requires i < |sources|
  {
    e in sources[i].operators && forall j :: 0 <= j < (if e.name == "" then |sources| else i) ==> !Names(sources[j], e.uuid)
  }

  function Start(sources: seq<Source>, i: nat): nat
    requires i <= |sources|
  {
    |AllEntries(sources[..i])|
  }

  /** Where the entries of a panel are among all entries. */
  lemma {:induction false} Placed(sources: seq<Source>, i: nat, k: nat)
    requires i < |sources| && k < |sources[i].operators|
    ensures Start(sources, i) + k < |AllEntries(sources)| && AllEntries(sources)[Start(sources, i) + k] == sources[i].operators[k]
    ensures Start(sources, i) + |sources[i].operators| <= |AllEntries(sources)|
  {
    var n := |sources| - 1;
    if i < n {
      Placed(sources[..n], i, k);
      assert sources[..n][..i] == sources[..i];
    } else {
      assert sources[..i] == sources[..n];
    }
  }

  lemma {:induction false} Located(sources: seq<Source>, p: nat) returns (i: nat, k: nat)
    requires p < |AllEntries(sources)|
    ensures i < |sources| && k < |sources[i].operators| && p == Start(sources, i) + k
    ensures AllEntries(sources)[p] == sources[i].operators[k]
  {
    var n := |sources| - 1;
    var front := AllEntries(sources[..n]);
    if p < |front| {
      i, k := Located(sources[..n], p);
      assert sources[..n][..i] == sources[..i];
    } else {
      i, k := n, p - |front|;
    }
  }

  /** The entries of an earlier panel come first. */
  lemma {:induction false} StartsInOrder(sources: seq<Source>, j: nat, i: nat)
    requires j < i <= |sources|
    ensures Start(sources, j) + |sources[j].operators| <= Start(sources, i)
    decreases i
  {
    assert sources[..i][..i - 1] == sources[..i - 1];
    if j < i - 1 { StartsInOrder(sources, j, i - 1); }
  }

  lemma {:induction false} PrevailsIfShown(sources: seq<Source>, e: Entry)
    requires Shown(AllEntries(sources), e)
    ensures exists i :: 0 <= i < |sources| && Prevails(sources, i, e)
  {
    var all := AllEntries(sources);
    var p :| 0 <= p < |all| && all[p] == e && FirstNamed(all, p);
    var i, k := Located(sources, p);
    forall j | 0 <= j < (if e.name == "" then |sources| else i) ensures !Names(sources[j], e.uuid) {
      forall n | n in sources[j].operators && n.uuid == e.uuid ensures n.name == "" {
        var m :| 0 <= m < |sources[j].operators| && sources[j].operators[m] == n;
        Placed(sources, j, m);
        if e.name != "" { StartsInOrder(sources, j, i); }
      }
    }
    assert Prevails(sources, i, e);
  }

  lemma ShownIfPrevails(sources: seq<Source>, i: nat, e: Entry)
    requires EachOnce(sources) && i < |sources| && Prevails(sources, i, e)
    ensures Shown(AllEntries(sources), e)
  {
    var all := AllEntries(sources);
    var k :| 0 <= k < |sources[i].operators| && sources[i].operators[k] == e;
    Placed(sources, i, k);
    var p := Start(sources, i) + k;
    forall q | 0 <= q < (if e.name == "" then |all| else p) && all[q].uuid == e.uuid ensures all[q].name == "" {
      var j, m := Located(sources, q);
      if i < j { StartsInOrder(sources, i, j); }
      if i == j { SameUuid(sources[i].operators, m, k); } else { NameOfOther(sources, i, j, m, e); }
    }
    assert FirstNamed(all, p);
  }

  lemma SameUuid(operators: seq<Entry>, m: nat, k: nat)
    requires Strict(operators, UuidOf) && m < |operators| && k < |operators| && operators[m].uuid == operators[k].uuid
    ensures m == k
  {
    assert UuidOf(operators[m]) == UuidOf(operators[k]);
  }

  lemma NameOfOther(sources: seq<Source>, i: nat, j: nat, m: nat, e: Entry)
    requires i < |sources| && Prevails(sources, i, e) && (e.name == "" || j < i)
    requires j < |sources| && m < |sources[j].operators| && sources[j].operators[m].uuid == e.uuid
    ensures sources[j].operators[m].name == ""
  {
    assert !Names(sources[j], e.uuid);
    assert sources[j].operators[m] in sources[j].operators;
  }

  /** The list sent to the game servers: each UUID of any source once, under its first name in panel
      order, or without a name if no panel gives one. Every update taken in is normalised first. */
  method OperatorCatalog(sources: seq<Source>) returns (operators: seq<Entry>)
    ensures IsCatalog(operators, AllEntries(sources))
    ensures (forall s :: s in sources ==> Normal(s)) ==>
      forall e :: e in operators <==> exists i :: 0 <= i < |sources| && Prevails(sources, i, e)
  {
    hide IsMerged, Shown, EachOnce, Prevails, Strict, AllEntries, Normal;
    var merged := MergeOperators(sources);
    MergedFacts(merged, AllEntries(sources));
    operators := SortedEntries(merged);
    if forall s :: s in sources ==> Normal(s) {
      NormalEachOnce(sources);
      forall e ensures Shown(AllEntries(sources), e) <==> exists i :: 0 <= i < |sources| && Prevails(sources, i, e) {
        ShownIffPrevails(sources, e);
      }
    }
  }

  lemma MergedFacts(merged: map<Uuid, Entry>, all: seq<Entry>)
    requires IsMerged(merged, all)
    ensures forall u :: u in merged ==> merged[u].uuid == u
    ensures forall e :: Shown(all, e) <==> e.uuid in merged && merged[e.uuid] == e
  {
    hide Shown;
  }

  lemma ShownIffPrevails(sources: seq<Source>, e: Entry)
    requires EachOnce(sources)
    ensures Shown(AllEntries(sources), e) <==> exists i :: 0 <= i < |sources| && Prevails(sources, i, e)
  {
    hide Shown, EachOnce, Prevails, AllEntries;
    if Shown(AllEntries(sources), e) { PrevailsIfShown(sources, e); }
    forall i | 0 <= i < |sources| && Prevails(sources, i, e) ensures Shown(AllEntries(sources), e) {
      ShownIfPrevails(sources, i, e);
    }
  }

  lemma NormalEachOnce(sources: seq<Source>)
    requires forall s :: s in sources ==> Normal(s)
    ensures EachOnce(sources)
  {
    forall i | 0 <= i < |sources| ensures Strict(sources[i].operators, UuidOf) {
      assert sources[i] in sources;
    }
  }

  // ----- updating the registry

  method OperatorSourceIndex(sources: seq<Source>, panel: PanelId) returns (index: int)
    ensures -1 <= index < |sources|
    ensures index >= 0 ==> sources[index].panel == panel
    ensures index < 0 ==> !HasPanel(sources, panel)
  {
    for i := 0 to |sources|
      invariant forall k :: 0 <= k < i ==> sources[k].panel != panel
    {
      if sources[i].panel == panel {
        return i;
      }
    }
    return -1;
  }

  /** The sources with one put in or replaced, in panel order. */
  ghost predicate WithSource(before: seq<Source>, after: seq<Source>, source: Source) {
    && Strict(after, Panel)
    && forall s :: s in after <==> s == source || (s in before && s.panel != source.panel)
  }

  lemma LatestAfter(before: seq<Source>, after: seq<Source>, delivered: set<Source>, source: Source)
    requires IsLatest(before, delivered) && WithSource(before, after, source)
    requires forall s :: s in before && s.panel == source.panel ==> s.revision <= source.revision
    ensures IsLatest(after, delivered + {source})
  {
    forall t | t in delivered + {source} ensures HasPanel(after, t.panel) {
      if t.panel == source.panel {
        assert source in after;
      } else {
        var s :| s in before && s.panel == t.panel;
        assert s in after;
      }
    }
    forall s, t | s in after && t in delivered + {source} && t.panel == s.panel ensures t.revision <= s.revision {
      if s == source && t in delivered {
        var r :| r in before && r.panel == t.panel;
        assert t.revision <= r.revision <= source.revision;
      }
    }
  }

  method PutSource(sources: seq<Source>, index: int, source: Source) returns (next: seq<Source>)
    requires Strict(sources, Panel) && -1 <= index < |sources|
    requires index >= 0 ==> sources[index].panel == source.panel
    requires index < 0 ==> !HasPanel(sources, source.panel)
    ensures WithSource(sources, next, source)
  {
    next := if index >= 0 then sources[index := source] else sources + [source];
    assert DistinctKeys(next, Panel);
    forall s ensures s in next <==> s == source || (s in sources && s.panel != source.panel) {
      if s in sources && s.panel != source.panel {
        var k :| 0 <= k < |sources| && sources[k] == s;
        assert next[k] == s;
      }
      if index >= 0 { assert next[index] == source; } else { assert next[|sources|] == source; }
    }
    SortByKeyIsStrict(next, Panel, SourceLe);
    next := Sort(next, SourceLe);
  }

  lemma LatestFacts(sources: seq<Source>, delivered: set<Source>)
    requires IsLatest(sources, delivered)
    ensures Strict(sources, Panel) && forall s :: s in sources ==> s in delivered
  {
  }

  lemma OnePerPanel(sources: seq<Source>, delivered: set<Source>, current: Source)
    requires IsLatest(sources, delivered) && current in sources
    ensures forall s :: s in sources && s.panel == current.panel ==> s == current
  {
  }

  /** An update no newer than the one recorded for its panel leaves the registry the latest. */
  lemma LatestStays(sources: seq<Source>, delivered: set<Source>, source: Source, current: Source)
    requires IsLatest(sources, delivered) && current in sources && source.panel == current.panel
    requires source.revision <= current.revision
    ensures IsLatest(sources, delivered + {source})
  {
    OnePerPanel(sources, delivered, current);
  }

  lemma SameIsWith(sources: seq<Source>, delivered: set<Source>, source: Source)
    requires IsLatest(sources, delivered) && source in sources
    ensures WithSource(sources, sources, source)
  {
    OnePerPanel(sources, delivered, source);
  }

  ghost predicate HasNewer(sources: seq<Source>, source: Source) {
    exists s :: s in sources && s.panel == source.panel && source.revision < s.revision
  }

  class Registry {
    var revision: nat
    var sources: seq<Source>
    /** Every update that was taken in, whether or not a later one replaced it. */
    ghost var delivered: set<Source>

    ghost predicate Valid()
      reads this
    {
      IsLatest(sources, delivered)
    }

    constructor ()
      ensures Valid() && sources == [] && revision == 0 && delivered == {}
    {
      revision, sources, delivered := 0, [], {};
    }

    /** saved tells whether the registry file could be written. */
    method Update(source: Source, saved: bool) returns (error: Option<Error>)
      requires Valid()
      modifies this
      ensures Valid()
      ensures error.Some? ==> error.value != InvalidRequest && sources == old(sources) && revision == old(revision)
      ensures delivered == old(delivered) + {source} || delivered == old(delivered)
      ensures saved && Consistent(old(delivered) + {source}) ==> delivered == old(delivered) + {source}
      ensures error == Some(ConfigWriteFailed) ==> !saved
      ensures error.None? ==> WithSource(old(sources), sources, source) && delivered == old(delivered) + {source}
      ensures error == Some(StaleRevision) ==> HasNewer(old(sources), source)
      ensures error == Some(RevisionConflict) ==> HasPanel(old(sources), source.panel) && !Consistent(old(delivered) + {source})
      ensures error.None? ==> revision == old(revision) + (if source in old(sources) then 0 else 1)
    {
      hide IsLatest, Strict, WithSource;
      LatestFacts(sources, delivered);
      var index := OperatorSourceIndex(sources, source.panel);
      if index >= 0 {
        var current := sources[index];
        OnePerPanel(sources, delivered, current);
        if source.revision <= current.revision { LatestStays(sources, delivered, source, current); }
        if source.revision < current.revision {
          delivered := delivered + {source};
          return Some(StaleRevision);
        }
        if source.revision == current.revision {
          if current != source {
            assert current in delivered;
            return Some(RevisionConflict);
          }
          SameIsWith(sources, delivered, source);
          delivered := delivered + {source};
          return None;
        }
      }
      var next := PutSource(sources, index, source);
      if !saved {
        return Some(ConfigWriteFailed);
      }
      LatestAfter(sources, next, delivered, source);
      revision := revision + 1;
      sources, delivered := next, delivered + {source};
      return None;
    }

    method ReplaceOperatorSource(raw: RawSource, saved: bool) returns (error: Option<Error>)
      requires Valid()
      modifies this
      ensures Valid()
      ensures error == Some(InvalidRequest) <==> !Acceptable(raw)
      ensures !Acceptable(raw) ==> delivered == old(delivered)
      ensures error.Some? ==> sources == old(sources) && revision == old(revision)
      ensures Acceptable(raw) && saved && Consistent(old(delivered) + {NormalForm(raw)}) ==>
        delivered == old(delivered) + {NormalForm(raw)}
      ensures error.None? ==> Acceptable(raw) && NormalForm(raw) in sources
    {
      var normalized := NormalizeOperatorSource(raw);
      if normalized.Err? {
        return Some(normalized.error);
      }
      error := Update(normalized.value, saved);
    }

    /** Removal leaves no trace of the panel: an old update may come in again afterwards. */
    method RemoveOperatorSource(panel: PanelId, saved: bool) returns (error: Option<Error>)
      requires Valid()
      modifies this
      ensures Valid()
      ensures error.Some? ==> !saved && sources == old(sources) && delivered == old(delivered) && revision == old(revision)
      ensures error.None? ==> delivered == set s | s in old(delivered) && s.panel != panel
      ensures error.None? ==> forall s :: s in sources <==> s in old(sources) && s.panel != panel
    {
      var index := OperatorSourceIndex(sources, panel);
      if index < 0 {
        assert forall t :: t in delivered ==> t.panel != panel;
        assert delivered == set s | s in delivered && s.panel != panel;
        return None;
      }
      if !saved {
        return Some(ConfigWriteFailed);
      }
      ghost var before := sources;
      RemovedAt(sources, delivered, index);
      sources := sources[..index] + sources[index + 1..];
      delivered := set s | s in delivered && s.panel != panel;
      revision := revision + 1;
      return None;
    }
  }

  function Dropped(sources: seq<Source>, index: nat): seq<Source>
    requires index < |sources|
  {
    sources[..index] + sources[index + 1..]
  }

  lemma DroppedIndices(sources: seq<Source>, index: nat)
    requires index < |sources|
    ensures forall k :: 0 <= k < |sources| - 1 ==> Dropped(sources, index)[k] == sources[if k < index then k else k + 1]
    ensures forall k :: 0 <= k < |sources| && k != index ==> sources[k] in Dropped(sources, index)
  {
    forall k | 0 <= k < |sources| && k != index ensures sources[k] in Dropped(sources, index) {
      assert Dropped(sources, index)[if k < index then k else k - 1] == sources[k];
    }
  }

  lemma RemovedMembers(sources: seq<Source>, index: nat)
    requires index < |sources| && Strict(sources, Panel)
    ensures Strict(Dropped(sources, index), Panel)
    ensures forall s :: s in Dropped(sources, index) <==> s in sources && s.panel != sources[index].panel
  {
    DroppedIndices(sources, index);
    var rest := Dropped(sources, index);
    forall s | s in rest ensures s in sources && s.panel != sources[index].panel {
      var k :| 0 <= k < |rest| && rest[k] == s;
      assert Panel(sources[if k < index then k else k + 1]) != Panel(sources[index]);
    }
  }

  lemma RemovedAt(sources: seq<Source>, delivered: set<Source>, index: nat)
    requires index < |sources| && IsLatest(sources, delivered)
    ensures var rest := Dropped(sources, index);
      && IsLatest(rest, set s | s in delivered && s.panel != sources[index].panel)
      && forall s :: s in rest <==> s in sources && s.panel != sources[index].panel
  {
    var rest := Dropped(sources, index);
    RemovedMembers(sources, index);
    forall t | t in delivered && t.panel != sources[index].panel ensures HasPanel(rest, t.panel) {
      var s :| s in sources && s.panel == t.panel;
      assert s in rest;
    }
  }

  // ----- any order, any repetition

  /** The updates that arrive in acceptable form. */
  ghost function Updates(raws: seq<RawSource>): set<Source> {
    set i | 0 <= i < |raws| && Acceptable(raws[i]) :: NormalForm(raws[i])
  }

  method DeliverAll(raws: seq<RawSource>) returns (registry: Registry)
    requires Consistent(Updates(raws))
    ensures fresh(registry) && registry.Valid() && registry.delivered == Updates(raws)
  {
    hide NormalForm, Acceptable, Updates, Consistent;
    registry := new Registry();
    NoUpdates(raws);
    for i := 0 to |raws|
      invariant registry.Valid() && registry.delivered == Updates(raws[..i])
    {
      UpdatesOneMore(raws, i);
      PartIsConsistent(Updates(raws[..i + 1]), Updates(raws));
      var _ := registry.ReplaceOperatorSource(raws[i], true);
    }
    assert raws[..|raws|] == raws;
  }

  lemma NoUpdates(raws: seq<RawSource>)
    ensures Updates(raws[..0]) == {}
  {
  }

  lemma PartIsConsistent(a: set<Source>, b: set<Source>)
    requires a <= b && Consistent(b)
    ensures Consistent(a)
  {
  }

  lemma UpdatesOneMore(raws: seq<RawSource>, i: nat)
    requires i < |raws|
    ensures Updates(raws[..i + 1]) == if Acceptable(raws[i]) then Updates(raws[..i]) + {NormalForm(raws[i])} else Updates(raws[..i])
    ensures Updates(raws[..i + 1]) <= Updates(raws)
  {
    var less, more := Updates(raws[..i]), Updates(raws[..i + 1]);
    assert forall k :: 0 <= k < i ==> raws[..i][k] == raws[k] && raws[..i + 1][k] == raws[k];
    assert raws[..i + 1][i] == raws[i];
    forall s | s in less ensures s in more {
      var k :| 0 <= k < i && Acceptable(raws[..i][k]) && s == NormalForm(raws[..i][k]);
      assert raws[..i + 1][k] == raws[k];
    }
  }

  /** Two deliveries of the same updates, in whatever order and however often, end with the same
      sources and the same merged list. */
  method DeliverTwice(first: seq<RawSource>, second: seq<RawSource>) returns (a: Registry, b: Registry, x: seq<Entry>, y: seq<Entry>)
    requires Updates(first) == Updates(second) && Consistent(Updates(first))
    ensures a.sources == b.sources && IsLatest(a.sources, Updates(first)) && x == y && IsCatalog(x, AllEntries(a.sources))
  {
    a := DeliverAll(first);
    b := DeliverAll(second);
    LatestIsUnique(a.sources, b.sources, Updates(first));
    x := OperatorCatalog(a.sources);
    y := OperatorCatalog(b.sources);
    CatalogIsUnique(x, y, AllEntries(a.sources));
  }

  /** There is no tombstone: after removal, an update older than the removed one is taken in. */
  method StaleAfterRemoval(panel: PanelId, older: nat, newer: nat) returns (registry: Registry)
    requires older < newer
    ensures registry.sources == [Source(panel, older, [])]
  {
    registry := new Registry();
    var stale, current := Source(panel, older, []), Source(panel, newer, []);
    var e := registry.Update(current, true);
    e := registry.RemoveOperatorSource(panel, true);
    assert forall s :: s !in registry.sources;
    e := registry.Update(stale, true);
    StrictUnique(registry.sources, [stale], Panel);
  }
}
