/** Port ranges of the firewall rules: ordering, merging and overlap.
    daemon/internal/firewall/service.go:447-605 */
module Ports {
  import opened Sorting

  datatype PortRange = PortRange(from: int, to: int)

  const MAX_PORT := 65535

  predicate ValidRange(r: PortRange) {
    1 <= r.from <= MAX_PORT && r.from <= r.to <= MAX_PORT
  }

  predicate Contains(r: PortRange, p: int) {
    r.from <= p <= r.to
  }

  /** The set of ports a list of ranges denotes. */
  ghost predicate Covers(s: seq<PortRange>, p: int) {
    exists i :: 0 <= i < |s| && Contains(s[i], p)
  }

  ghost predicate SameCoverage(a: seq<PortRange>, b: seq<PortRange>) {
    forall p :: Covers(a, p) <==> Covers(b, p)
  }

  ghost predicate NonEmpty(s: seq<PortRange>) {
    forall i :: 0 <= i < |s| ==> s[i].from <= s[i].to
  }

  /** Each range starts no earlier than the one before it. */
  predicate Ascending(s: seq<PortRange>) {
    forall i, j :: 0 <= i < j < |s| ==> s[i].from <= s[j].from
  }

  /** No two positions hold ranges with a common port. */
  ghost predicate PairwiseDisjoint(s: seq<PortRange>) {
    forall i, j :: 0 <= i < j < |s| ==> !Overlap(s[i], s[j])
  }

  predicate Overlap(a: PortRange, b: PortRange) {
    a.from <= b.to && b.from <= a.to
  }

  /** Non-empty ranges in ascending order with at least one free port between neighbours. */
  ghost predicate Gapped(s: seq<PortRange>) {
    NonEmpty(s) && forall i, j :: 0 <= i < j < |s| ==> s[i].to + 1 < s[j].from
  }

  // ----- merging

  /** What one pass of the merge loop does to the ranges merged so far. */
  function MergeStep(merged: seq<PortRange>, current: PortRange): seq<PortRange> {
    if merged == [] || current.from > merged[|merged| - 1].to + 1 then
      merged + [current]
    else if current.to > merged[|merged| - 1].to then
      merged[|merged| - 1 := PortRange(merged[|merged| - 1].from, current.to)]
    else
      merged
  }

  function Merged(s: seq<PortRange>): seq<PortRange> {
    if s == [] then [] else MergeStep(Merged(s[..|s| - 1]), s[|s| - 1])
  }

  method MergePortRanges(values: seq<PortRange>) returns (merged: seq<PortRange>)
    ensures merged == Merged(values)
  {
    if |values| < 2 {
      assert |values| == 1 ==> values[..0] == [];
      return values;
    }
    merged := [];
    var i := 0;
    while i < |values|
      invariant 0 <= i <= |values|
      invariant merged == Merged(values[..i])
    {
      var current := values[i];
      assert values[..i + 1][..i] == values[..i];
      i := i + 1;
      if |merged| == 0 || current.from > merged[|merged| - 1].to + 1 {
        merged := merged + [current];
        continue;
      }
      if current.to > merged[|merged| - 1].to {
        merged := merged[|merged| - 1 := PortRange(merged[|merged| - 1].from, current.to)];
      }
    }
    assert values[..i] == values;
  }

  lemma CoversAppend(a: seq<PortRange>, b: seq<PortRange>, p: int)
    ensures Covers(a + b, p) <==> Covers(a, p) || Covers(b, p)
  {
    if Covers(a, p) {
      var i :| 0 <= i < |a| && Contains(a[i], p);
      assert (a + b)[i] == a[i];
    }
    if Covers(b, p) {
      var i :| 0 <= i < |b| && Contains(b[i], p);
      assert (a + b)[|a| + i] == b[i];
    }
  }

  lemma CoversSnoc(s: seq<PortRange>, p: int)
    requires s != []
    ensures Covers(s, p) <==> Covers(s[..|s| - 1], p) || Contains(s[|s| - 1], p)
  {
    var last := s[|s| - 1];
    assert s == s[..|s| - 1] + [last];
    CoversAppend(s[..|s| - 1], [last], p);
    assert Covers([last], p) <==> Contains(last, p) by { assert [last][0] == last; }
  }

  /** Merging never adds a port, whatever the order of the input. */
  lemma {:induction false} MergeAddsNothing(s: seq<PortRange>, p: int)
    requires Covers(Merged(s), p)
    ensures Covers(s, p)
  {
    if s == [] {
    } else {
      var before, current := Merged(s[..|s| - 1]), s[|s| - 1];
      CoversSnoc(s, p);
      CoversSnoc(Merged(s), p);
      if before != [] { CoversSnoc(before, p); }
      if Covers(before, p) {
        MergeAddsNothing(s[..|s| - 1], p);
      }
    }
  }

  /** Merged ranges are non-empty, ascending and separated by free ports, for any input order. */
  lemma {:induction false} MergeLeavesGaps(s: seq<PortRange>)
    requires NonEmpty(s)
    ensures Gapped(Merged(s))
  {
    if s != [] {
      MergeLeavesGaps(s[..|s| - 1]);
    }
  }

  /** One merge step keeps every port when the new range starts no earlier than the last merged one. */
  lemma StepKeepsPorts(merged: seq<PortRange>, current: PortRange, p: int)
    requires merged == [] || merged[|merged| - 1].from <= current.from
    requires Covers(merged, p) || Contains(current, p)
    ensures Covers(MergeStep(merged, current), p)
  {
    CoversSnoc(MergeStep(merged, current), p);
    if merged != [] { CoversSnoc(merged, p); }
  }

  lemma {:induction false} LastMergedStart(s: seq<PortRange>)
    requires s != []
    ensures Merged(s) != []
    ensures exists i :: 0 <= i < |s| && s[i].from == Merged(s)[|Merged(s)| - 1].from
  {
    var before := Merged(s[..|s| - 1]);
    if |s| > 1 {
      LastMergedStart(s[..|s| - 1]);
      var i :| 0 <= i < |s| - 1 && s[i].from == before[|before| - 1].from;
      assert s[|s| - 1].from == Merged(s)[|Merged(s)| - 1].from || s[i].from == Merged(s)[|Merged(s)| - 1].from;
    } else {
      assert s[0].from == Merged(s)[|Merged(s)| - 1].from;
    }
  }

  /** On ascending input merging loses no port. */
  lemma {:induction false} MergeLosesNothing(s: seq<PortRange>, p: int)
    requires Ascending(s) && Covers(s, p)
    ensures Covers(Merged(s), p)
  {
    CoversSnoc(s, p);
    var front := s[..|s| - 1];
    if front != [] { LastMergedStart(front); }
    if Covers(front, p) { MergeLosesNothing(front, p); }
    StepKeepsPorts(Merged(front), s[|s| - 1], p);
  }

  // ----- exactly when merging keeps the ports

  lemma {:induction false} MergedUpperBound(s: seq<PortRange>)
    requires s != [] && NonEmpty(s)
    ensures Merged(s) != []
    ensures forall i :: 0 <= i < |s| ==> s[i].to <= Merged(s)[|Merged(s)| - 1].to
  {
    if |s| > 1 {
      MergedUpperBound(s[..|s| - 1]);
      assert forall i :: 0 <= i < |s| - 1 ==> s[..|s| - 1][i] == s[i];
    }
  }

  lemma StepRecoversNothing(merged: seq<PortRange>, current: PortRange, p: int)
    requires merged != [] && p <= merged[|merged| - 1].to && !Covers(merged, p)
    requires current.from <= current.to
    ensures MergeStep(merged, current) != []
    ensures p <= MergeStep(merged, current)[|MergeStep(merged, current)| - 1].to
    ensures !Covers(MergeStep(merged, current), p)
  {
    CoversSnoc(merged, p);
    CoversSnoc(MergeStep(merged, current), p);
    assert !Contains(merged[|merged| - 1], p);
  }

  /** A port at or below the last merged end that is not yet covered stays uncovered for good. */
  lemma {:induction false} LostForGood(s: seq<PortRange>, n: nat, p: int)
    requires NonEmpty(s) && 0 < n <= |s|
    requires Merged(s[..n]) != [] && p <= Merged(s[..n])[|Merged(s[..n])| - 1].to
    requires !Covers(Merged(s[..n]), p)
    ensures !Covers(Merged(s), p)
    ensures Merged(s) != [] && p <= Merged(s)[|Merged(s)| - 1].to
  {
    if n == |s| {
      assert s[..n] == s;
    } else {
      var front := s[..|s| - 1];
      assert front[..n] == s[..n];
      LostForGood(front, n, p);
      StepRecoversNothing(Merged(front), s[|s| - 1], p);
    }
  }

  /** A range that starts below an earlier, disjoint one vanishes from the merged list. */
  lemma {:induction false} DescentLosesPort(s: seq<PortRange>, i: nat, j: nat)
    requires NonEmpty(s) && PairwiseDisjoint(s)
    requires i < j < |s| && s[j].from < s[i].from
    ensures !Covers(Merged(s), s[j].from)
  {
    var front, p := s[..j], s[j].from;
    MergedUpperBound(front);
    assert front[i] == s[i];
    assert !Overlap(s[i], s[j]);
    assert s[j].to < s[i].from;
    forall k | 0 <= k < |front| ensures !Contains(front[k], p) {
      assert !Overlap(s[k], s[j]);
    }
    if Covers(Merged(front), p) { MergeAddsNothing(front, p); }
    assert s[..j + 1][..j] == front && s[..j + 1][j] == s[j];
    assert Merged(s[..j + 1]) == MergeStep(Merged(front), s[j]) == Merged(front);
    LostForGood(s, j + 1, p);
  }

  /** For ranges that share no port, merging in the given order keeps the covered ports
      exactly when that order is ascending. */
  lemma MergeFaithfulIffAscending(s: seq<PortRange>)
    requires NonEmpty(s) && PairwiseDisjoint(s)
    ensures SameCoverage(Merged(s), s) <==> Ascending(s)
  {
    if Ascending(s) {
      forall p ensures Covers(Merged(s), p) <==> Covers(s, p) {
        if Covers(s, p) { MergeLosesNothing(s, p); }
        if Covers(Merged(s), p) { MergeAddsNothing(s, p); }
      }
    } else {
      var i, j :| 0 <= i < j < |s| && !(s[i].from <= s[j].from);
      DescentLosesPort(s, i, j);
      assert Contains(s[j], s[j].from);
      assert Covers(s, s[j].from);
    }
  }

  // ----- sort then merge is a canonical form

  predicate SortsBefore(a: PortRange, b: PortRange) {
    a.from < b.from || (a.from == b.from && a.to <= b.to)
  }

  lemma SortOrderIsTotal()
    ensures TotalOrder(SortsBefore)
  {
  }

  function SortPortRanges(s: seq<PortRange>): seq<PortRange> {
    Sort(s, SortsBefore)
  }

  function NormalizePorts(s: seq<PortRange>): seq<PortRange> {
    Merged(SortPortRanges(s))
  }

  lemma CoverageIsOrderFree(a: seq<PortRange>, b: seq<PortRange>, p: int)
    requires multiset(a) == multiset(b) && Covers(a, p)
    ensures Covers(b, p)
  {
    var i :| 0 <= i < |a| && Contains(a[i], p);
    assert a[i] in multiset(b);
    var k :| 0 <= k < |b| && b[k] == a[i];
  }

  /** Sort then merge keeps exactly the covered ports and leaves a gap between neighbours. */
  lemma NormalizeKeepsCoverage(s: seq<PortRange>)
    requires NonEmpty(s)
    ensures SameCoverage(NormalizePorts(s), s)
    ensures Gapped(NormalizePorts(s))
  {
    SortOrderIsTotal();
    SortIsSortedPermutation(s, SortsBefore);
    var t := SortPortRanges(s);
    assert NonEmpty(t) by {
      forall i | 0 <= i < |t| ensures t[i].from <= t[i].to {
        assert t[i] in multiset(s);
      }
    }
    assert Ascending(t) by {
      forall i, j | 0 <= i < j < |t| ensures t[i].from <= t[j].from {
        assert SortsBefore(t[i], t[j]);
      }
    }
    MergeLeavesGaps(t);
    forall p ensures Covers(NormalizePorts(s), p) <==> Covers(s, p) {
      if Covers(s, p) { CoverageIsOrderFree(s, t, p); MergeLosesNothing(t, p); }
      if Covers(Merged(t), p) { MergeAddsNothing(t, p); CoverageIsOrderFree(t, s, p); }
    }
  }

  lemma GappedTail(s: seq<PortRange>, p: int)
    requires Gapped(s) && s != []
    ensures Gapped(s[1..])
    ensures Covers(s[1..], p) <==> Covers(s, p) && p > s[0].to
    ensures Covers(s, p) ==> s[0].from <= p
    ensures !Covers(s, s[0].to + 1) && forall q :: Contains(s[0], q) ==> Covers(s, q)
  {
    assert s == [s[0]] + s[1..];
    CoversAppend([s[0]], s[1..], p);
    assert Covers([s[0]], p) <==> Contains(s[0], p) by { assert [s[0]][0] == s[0]; }
    if Covers(s[1..], p) {
      var i :| 0 <= i < |s[1..]| && Contains(s[1..][i], p);
      assert s[1..][i] == s[i + 1];
    }
    assert forall i :: 0 < i < |s| ==> s[0].to + 1 < s[i].from;
    forall q | Contains(s[0], q) ensures Covers(s, q) {
    }
  }

  /** Gapped lists are determined by the ports they cover. */
  lemma {:induction false} GappedUnique(a: seq<PortRange>, b: seq<PortRange>)
    requires Gapped(a) && Gapped(b) && SameCoverage(a, b)
    ensures a == b
  {
    if a == [] || b == [] {
      if a != [] { assert Contains(a[0], a[0].from); assert Covers(a, a[0].from); }
      if b != [] { assert Contains(b[0], b[0].from); assert Covers(b, b[0].from); }
    } else {
      FirstRangeAgrees(a, b);
      forall p ensures Covers(a[1..], p) <==> Covers(b[1..], p) {
        GappedTail(a, p);
        GappedTail(b, p);
      }
      GappedTail(a, 0);
      GappedTail(b, 0);
      GappedUnique(a[1..], b[1..]);
      assert a == [a[0]] + a[1..] && b == [b[0]] + b[1..];
    }
  }

  lemma FirstRangeAgrees(a: seq<PortRange>, b: seq<PortRange>)
    requires Gapped(a) && Gapped(b) && SameCoverage(a, b) && a != [] && b != []
    ensures a[0] == b[0]
  {
    GappedTail(a, b[0].from);
    GappedTail(b, a[0].from);
    assert Contains(a[0], a[0].from) && Contains(b[0], b[0].from);
    assert !Contains(b[0], a[0].to + 1) && !Contains(a[0], b[0].to + 1);
  }

  /** Sort then merge is a canonical form of the set of ports. */
  lemma NormalizeIsCanonical(a: seq<PortRange>, b: seq<PortRange>)
    requires NonEmpty(a) && NonEmpty(b)
    ensures NormalizePorts(a) == NormalizePorts(b) <==> SameCoverage(a, b)
  {
    NormalizeKeepsCoverage(a);
    NormalizeKeepsCoverage(b);
    if SameCoverage(a, b) {
      GappedUnique(NormalizePorts(a), NormalizePorts(b));
    } else {
      var p :| Covers(a, p) != Covers(b, p);
      assert Covers(NormalizePorts(a), p) != Covers(NormalizePorts(b), p);
    }
  }

  // ----- the overlap check of validateState

  /** The adjacent comparison after sorting. */
  lemma SortedPorts(ports: seq<PortRange>)
    ensures multiset(SortPortRanges(ports)) == multiset(ports)
    ensures forall i, j :: 0 <= i < j < |SortPortRanges(ports)| ==> SortPortRanges(ports)[i].from <= SortPortRanges(ports)[j].from
  {
    SortOrderIsTotal();
    SortIsSortedPermutation(ports, SortsBefore);
    assert forall i, j :: 0 <= i < j < |SortPortRanges(ports)| ==> SortsBefore(SortPortRanges(ports)[i], SortPortRanges(ports)[j]);
  }

  method AdjacentConflict(ports: seq<PortRange>) returns (conflict: bool)
    requires NonEmpty(ports)
    ensures conflict <==> !PairwiseDisjoint(ports)
  {
    hide Sort, TotalOrder, Insert;
    var sorted := SortPortRanges(ports);
    SortedPorts(ports);
    PermutationDisjoint(ports, sorted);
    var index := 1;
    while index < |sorted|
      invariant 1 <= index
      invariant index <= |sorted| || |sorted| == 0
      invariant forall i, j :: 0 <= i < j < index && j < |sorted| ==> sorted[i].to < sorted[j].from
    {
      if sorted[index].from <= sorted[index - 1].to {
        assert Overlap(sorted[index - 1], sorted[index]);
        return true;
      }
      index := index + 1;
    }
    return false;
  }

  lemma PermutationDisjoint(a: seq<PortRange>, b: seq<PortRange>)
    requires multiset(a) == multiset(b) && NonEmpty(a)
    ensures NonEmpty(b)
    ensures PairwiseDisjoint(a) <==> PairwiseDisjoint(b)
  {
    forall i | 0 <= i < |b| ensures b[i].from <= b[i].to {
      assert b[i] in multiset(a);
    }
    if PairwiseDisjoint(a) { PermutationKeepsDisjointness(a, b); }
    if PairwiseDisjoint(b) { PermutationKeepsDisjointness(b, a); }
  }

  lemma PermutationKeepsDisjointness(a: seq<PortRange>, b: seq<PortRange>)
    requires multiset(a) == multiset(b) && NonEmpty(a) && PairwiseDisjoint(a)
    ensures PairwiseDisjoint(b)
  {
    forall i, j | 0 <= i < j < |b| ensures !Overlap(b[i], b[j]) {
      var m, n := DistinctSources(a, b, i, j);
      assert !Overlap(a[m], a[n]);
    }
  }

  /** Two positions of a permutation come from two positions of the original. */
  lemma DistinctSources(a: seq<PortRange>, b: seq<PortRange>, i: nat, j: nat) returns (m: nat, n: nat)
    requires multiset(a) == multiset(b) && i < j < |b|
    ensures m < n < |a| && ((a[m] == b[i] && a[n] == b[j]) || (a[m] == b[j] && a[n] == b[i]))
  {
    if b[i] == b[j] {
      TwoOccurrences(b, i, j);
      m, n := TwoPositions(a, b[i]);
    } else {
      assert b[i] in multiset(a) && b[j] in multiset(a);
      var u :| 0 <= u < |a| && a[u] == b[i];
      var v :| 0 <= v < |a| && a[v] == b[j];
      m, n := if u < v then u else v, if u < v then v else u;
    }
  }
}
