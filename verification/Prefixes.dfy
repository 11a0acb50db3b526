/** CIDR prefixes of the firewall sources and their compaction.
    daemon/internal/firewall/renderer.go:116-158 */
module Prefixes {
  import opened Sorting

  datatype Family = IPv4 | IPv6

  function Width(family: Family): nat {
    if family.IPv4? then 32 else 128
  }

  lemma MultipleAtLeast(k: int, d: nat)
    requires k > 0
    ensures k * d >= d
  {
  }

  lemma DivideUnique(a: nat, d: nat, q: nat, r: nat)
    requires d > 0 && r < d && a == q * d + r
    ensures a / d == q && a % d == r
  {
    var q', r' := a / d, a % d;
    assert a == q' * d + r';
    assert (q - q') * d == q * d - q' * d && (q' - q) * d == q' * d - q * d;
    if q > q' {
      MultipleAtLeast(q - q', d);
    } else if q < q' {
      MultipleAtLeast(q' - q, d);
    }
  }

  /** The largest multiple of d not above v. */
  function Floor(v: nat, d: nat): (r: nat)
    requires d > 0
    ensures r % d == 0 && r / d == v / d && r <= v
  {
    assert v == v / d * d + v % d;
    DivideUnique(v - v % d, d, v / d, 0);
    v - v % d
  }

  function Pow2(n: nat): (r: nat)
    ensures r >= 1
  {
    if n == 0 then 1 else 2 * Pow2(n - 1)
  }

  datatype RawAddress = RawAddress(family: Family, value: nat)

  /** An address of its family's width; IPv4-mapped IPv6 addresses are already unmapped. */
  type Address = a: RawAddress | a.value < Pow2(Width(a.family)) witness RawAddress(IPv4, 0)

  datatype RawPrefix = RawPrefix(address: Address, bits: nat)

  /** A parsed prefix: the length fits the family. */
  type Prefix = p: RawPrefix | p.bits <= Width(p.address.family) witness RawPrefix(RawAddress(IPv4, 0), 0)

  /** The size of the block of addresses a prefix denotes. */
  function BlockSize(p: Prefix): (r: nat)
    ensures r >= 1
  {
    Pow2(Width(p.address.family) - p.bits)
  }

  /** netip.Prefix.Contains: same family and equal leading bits. */
  predicate Contains(p: Prefix, a: Address)
  {
    a.family == p.address.family && a.value / BlockSize(p) == p.address.value / BlockSize(p)
  }

  function Masked(p: Prefix): Prefix
  {
    RawPrefix(RawAddress(p.address.family, Floor(p.address.value, BlockSize(p))), p.bits)
  }

  predicate IsMasked(p: Prefix) {
    p.address.value % BlockSize(p) == 0
  }

  /** The set of addresses a list of prefixes denotes. */
  ghost predicate Matches(s: seq<Prefix>, a: Address)
  {
    exists i :: 0 <= i < |s| && Contains(s[i], a)
  }

  // ----- blocks are nested or disjoint

  lemma PowAdd(m: nat, n: nat)
    ensures Pow2(m + n) == Pow2(m) * Pow2(n)
  {
    if m > 0 { PowAdd(m - 1, n); }
  }

  lemma Regroup(q: nat, n: nat, m: nat, r: nat, low: nat)
    ensures (q * n + r) * m + low == q * (m * n) + (r * m + low)
  {
  }

  lemma RemaindersFit(n: nat, m: nat, r: nat, low: nat)
    requires r < n && low < m
    ensures r * m + low < m * n
  {
    assert (r + 1) * m <= n * m;
  }

  lemma DivideTwice(a: nat, m: nat, n: nat)
    requires m > 0 && n > 0
    ensures m * n > 0 && a / m / n == a / (m * n)
  {
    var q, r, low := a / m / n, a / m % n, a % m;
    assert a / m == q * n + r;
    assert a == (a / m) * m + low;
    Regroup(q, n, m, r, low);
    RemaindersFit(n, m, r, low);
    DivideUnique(a, m * n, q, r * m + low);
  }

  lemma MaskKeepsMembers(p: Prefix, a: Address)
    ensures IsMasked(Masked(p)) && (Contains(Masked(p), a) <==> Contains(p, a))
  {
    hide BlockSize, Floor, Pow2, Width;
    BlockOfMasked(p);
    assert Masked(p).address.value == Floor(p.address.value, BlockSize(p));
  }

  lemma BlockOfMasked(p: Prefix)
    ensures BlockSize(Masked(p)) == BlockSize(p)
  {
    hide Floor, Pow2;
  }

  /** The longer of two blocks lies inside the shorter one or shares no address with it, and its
      base address decides which. */
  lemma NestedOrDisjoint(p: Prefix, q: Prefix, a: Address)
    requires p.bits <= q.bits
    requires Contains(q, a)
    ensures Contains(p, a) <==> Contains(p, q.address)
  {
    if p.address.family == q.address.family {
      var w := Width(p.address.family);
      PowAdd(w - q.bits, q.bits - p.bits);
      var inner, ratio := BlockSize(q), Pow2(q.bits - p.bits);
      assert BlockSize(p) == inner * ratio;
      DivideTwice(a.value, inner, ratio);
      DivideTwice(q.address.value, inner, ratio);
    }
  }

  // ----- compaction

  function FamilyRank(f: Family): nat {
    if f.IPv4? then 0 else 1
  }

  /** The order of sort.Slice in compactPrefixes: prefix length, then address. */
  predicate PrefixLe(a: Prefix, b: Prefix) {
    if a.bits != b.bits then a.bits < b.bits
    else if a.address.family != b.address.family then
      FamilyRank(a.address.family) < FamilyRank(b.address.family)
    else a.address.value <= b.address.value
  }

  lemma PrefixOrderIsTotal()
    ensures TotalOrder(PrefixLe)
  {
  }

  /** The prefixes the compaction loop keeps, in order. */
  function Keep(s: seq<Prefix>): (r: seq<Prefix>)
  {
    if s == [] then [] else
      var front, candidate := Keep(s[..|s| - 1]), s[|s| - 1];
      if exists i :: 0 <= i < |front| && Contains(front[i], candidate.address)
      then front else front + [candidate]
  }

  lemma SortedPrefixes(values: seq<Prefix>)
    ensures Sorted(Sort(values, PrefixLe), PrefixLe)
    ensures forall p :: p in Sort(values, PrefixLe) <==> p in values
  {
    PrefixOrderIsTotal();
    SortIsSortedPermutation(values, PrefixLe);
    var s := Sort(values, PrefixLe);
    forall p ensures p in s <==> p in values {
      assert p in multiset(s) <==> p in s;
      assert p in multiset(values) <==> p in values;
    }
  }

  function Compact(values: seq<Prefix>): (r: seq<Prefix>)
  {
    Keep(Sort(values, PrefixLe))
  }

  lemma KeepNothing()
    ensures Keep([]) == []
  {
  }

  lemma KeepOneMore(s: seq<Prefix>, k: nat)
    requires k < |s|
    ensures Keep(s[..k + 1]) ==
      if exists i :: 0 <= i < |Keep(s[..k])| && Contains(Keep(s[..k])[i], s[k].address)
      then Keep(s[..k]) else Keep(s[..k]) + [s[k]]
  {
    hide Contains;
    assert s[..k + 1][..k] == s[..k];
  }

  method CompactPrefixes(values: seq<Prefix>) returns (result: seq<Prefix>)
    ensures result == Compact(values)
  {
    hide Contains, Keep, Sort;
    SortedPrefixes(values);
    var sorted := Sort(values, PrefixLe);
    result := [];
    assert sorted[..0] == [];
    KeepNothing();
    for k := 0 to |sorted|
      invariant result == Keep(sorted[..k])
    {
      var candidate := sorted[k];
      KeepOneMore(sorted, k);
      var contained := false;
      var i := 0;
      while i < |result| && !contained
        invariant 0 <= i <= |result|
        invariant contained <==> exists j :: 0 <= j < i && Contains(result[j], candidate.address)
      {
        contained := Contains(result[i], candidate.address);
        i := i + 1;
      }
      if !contained {
        result := result + [candidate];
      }
    }
    assert sorted[..|sorted|] == sorted;
  }

  lemma SelfContained(p: Prefix)
    ensures Contains(p, p.address)
  {
  }

  lemma {:induction false} KeepIsSubsequence(s: seq<Prefix>, p: Prefix)
    requires p in Keep(s)
    ensures p in s
  {
    if s != [] && p != s[|s| - 1] { KeepIsSubsequence(s[..|s| - 1], p); }
  }

  /** Kept prefixes stay in order and none contains the base of a later one. */
  lemma {:induction false} KeepIsSeparated(s: seq<Prefix>)
    requires Sorted(s, PrefixLe)
    ensures Sorted(Keep(s), PrefixLe)
    ensures forall i, j :: 0 <= i < j < |Keep(s)| ==> !Contains(Keep(s)[i], Keep(s)[j].address)
  {
    if s != [] {
      var front := s[..|s| - 1];
      KeepIsSeparated(front);
      forall i | 0 <= i < |Keep(front)| ensures PrefixLe(Keep(front)[i], s[|s| - 1]) {
        KeepIsSubsequence(front, Keep(front)[i]);
        var k :| 0 <= k < |front| && front[k] == Keep(front)[i];
        assert s[k] == front[k];
      }
    }
  }

  /** Every input prefix has its base inside a kept prefix that is no longer than it. */
  lemma {:induction false} KeepCovers(s: seq<Prefix>, k: nat) returns (i: nat)
    requires Sorted(s, PrefixLe) && k < |s|
    ensures i < |Keep(s)| && Keep(s)[i].bits <= s[k].bits && Contains(Keep(s)[i], s[k].address)
  {
    var front := s[..|s| - 1];
    if k < |front| {
      i := KeepCovers(front, k);
    } else if i' :| 0 <= i' < |Keep(front)| && Contains(Keep(front)[i'], s[k].address) {
      i := i';
      KeepIsSubsequence(front, Keep(front)[i]);
      var j :| 0 <= j < |front| && front[j] == Keep(front)[i];
      assert PrefixLe(s[j], s[k]);
    } else {
      i := |Keep(front)|;
    }
  }

  /** Compaction denotes exactly the input's addresses, with no address in two prefixes. */
  lemma CompactKeepsAddresses(values: seq<Prefix>, a: Address)
    ensures Matches(Compact(values), a) <==> Matches(values, a)
    ensures forall i, j :: 0 <= i < j < |Compact(values)| ==>
      !(Contains(Compact(values)[i], a) && Contains(Compact(values)[j], a))
  {
    SortedPrefixes(values);
    var s, r := Sort(values, PrefixLe), Compact(values);
    KeepIsSeparated(s);
    if Matches(r, a) {
      var i :| 0 <= i < |r| && Contains(r[i], a);
      KeepIsSubsequence(s, r[i]);
      var k :| 0 <= k < |values| && values[k] == r[i];
    }
    if Matches(values, a) {
      var k :| 0 <= k < |values| && Contains(values[k], a);
      assert values[k] in s;
      var m :| 0 <= m < |s| && s[m] == values[k];
      var i := KeepCovers(s, m);
      NestedOrDisjoint(r[i], s[m], a);
    }
    forall i, j | 0 <= i < j < |r| ensures !(Contains(r[i], a) && Contains(r[j], a)) {
      assert PrefixLe(r[i], r[j]);
      if Contains(r[j], a) { NestedOrDisjoint(r[i], r[j], a); }
    }
  }

  // ----- the result depends on the set of prefixes only

  /** p is an input prefix that no other input prefix subsumes. */
  ghost predicate Maximal(values: seq<Prefix>, p: Prefix)
  {
    && p in values
    && forall q :: q in values && q != p ==> !(q.bits <= p.bits && Contains(q, p.address))
  }

  lemma SameBlockSameBits(p: Prefix, q: Prefix)
    requires IsMasked(p) && IsMasked(q) && p.bits == q.bits
    ensures Contains(p, q.address) <==> p == q
  {
    hide Pow2;
    if p.address.family == q.address.family { SameMultiple(p.address.value, q.address.value, BlockSize(p)); }
  }

  lemma SameMultiple(a: nat, b: nat, d: nat)
    requires d > 0 && a % d == 0 && b % d == 0
    ensures a / d == b / d <==> a == b
  {
    DivideRebuild(a, d);
    DivideRebuild(b, d);
  }

  lemma DivideRebuild(v: nat, d: nat)
    requires d > 0
    ensures v == v / d * d + v % d
  {
  }

  ghost predicate AllMasked(s: seq<Prefix>) {
    forall i :: 0 <= i < |s| ==> IsMasked(s[i])
  }

  /** The kept prefixes are exactly the maximal ones. */
  lemma CompactIsMaximal(values: seq<Prefix>, p: Prefix)
    requires AllMasked(values)
    ensures p in Compact(values) <==> Maximal(values, p)
  {
    SortedPrefixes(values);
    var s, r := Sort(values, PrefixLe), Compact(values);
    KeepIsSeparated(s);
    if p in values {
      assert p in s;
      var k :| 0 <= k < |s| && s[k] == p;
      var i := KeepCovers(s, k);
      KeepIsSubsequence(s, r[i]);
      if p !in r {
        assert r[i] in values && r[i] != p;
      } else {
        forall q | q in values && q != p && q.bits <= p.bits ensures !Contains(q, p.address) {
          KeptIsNotSubsumed(values, p, q);
        }
      }
    } else if p in r {
      KeepIsSubsequence(s, p);
    }
  }

  lemma KeptIsNotSubsumed(values: seq<Prefix>, p: Prefix, q: Prefix)
    requires AllMasked(values)
    requires p in Compact(values) && p in values && q in values && q != p && q.bits <= p.bits
    ensures !Contains(q, p.address)
  {
    SortedPrefixes(values);
    var s, r := Sort(values, PrefixLe), Compact(values);
    KeepIsSeparated(s);
    var j :| 0 <= j < |r| && r[j] == p;
    assert q in s;
    var k :| 0 <= k < |s| && s[k] == q;
    var i := KeepCovers(s, k);
    if i < j {
      if Contains(q, p.address) { NestedOrDisjoint(r[i], q, p.address); }
    } else {
      assert i == j || PrefixLe(r[j], r[i]);
      SameBlockSameBits(q, p);
    }
  }

  lemma HasElement<T>(s: seq<T>)
    ensures s == [] || exists x :: x in s
  {
    if s != [] { assert s[0] in s; }
  }

  lemma {:induction false} SortedDistinctUnique(a: seq<Prefix>, b: seq<Prefix>)
    requires Sorted(a, PrefixLe) && Sorted(b, PrefixLe)
    requires forall i, j :: 0 <= i < j < |a| ==> a[i] != a[j]
    requires forall i, j :: 0 <= i < j < |b| ==> b[i] != b[j]
    requires forall p :: p in a <==> p in b
    ensures a == b
  {
    if a == [] {
      HasElement(b);
    } else {
      assert a[0] in b && b != [];
      assert b[0] in a;
      PrefixOrderIsTotal();
      assert a[0] == b[0];
      forall p ensures p in a[1..] <==> p in b[1..] {
        assert p in a <==> p == a[0] || p in a[1..];
        assert p in b <==> p == b[0] || p in b[1..];
      }
      SortedDistinctUnique(a[1..], b[1..]);
    }
  }

  lemma CompactIsDistinct(values: seq<Prefix>)
    ensures Sorted(Compact(values), PrefixLe)
    ensures forall i, j :: 0 <= i < j < |Compact(values)| ==> Compact(values)[i] != Compact(values)[j]
  {
    SortedPrefixes(values);
    KeepIsSeparated(Sort(values, PrefixLe));
    var r := Compact(values);
    forall i, j | 0 <= i < j < |r| ensures r[i] != r[j] {
      SelfContained(r[j]);
    }
  }

  /** Any two lists with the same set of masked prefixes compact to the same list. */
  lemma CompactDependsOnSet(a: seq<Prefix>, b: seq<Prefix>)
    requires AllMasked(a) && AllMasked(b)
    requires forall p :: p in a <==> p in b
    ensures Compact(a) == Compact(b)
  {
    CompactIsDistinct(a);
    CompactIsDistinct(b);
    forall p ensures p in Compact(a) <==> p in Compact(b) {
      CompactIsMaximal(a, p);
      CompactIsMaximal(b, p);
    }
    SortedDistinctUnique(Compact(a), Compact(b));
  }

  // ----- splitting by family

  /** The masked prefixes of one family, in input order. */
  function OfFamily(values: seq<Prefix>, family: Family): (r: seq<Prefix>)
  {
    if values == [] then []
    else
      var rest := OfFamily(values[1..], family);
      MaskKeepsMembers(values[0], values[0].address);
      if values[0].address.family == family then [Masked(values[0])] + rest else rest
  }

  lemma {:induction false} OfFamilyMatches(values: seq<Prefix>, family: Family, a: Address)
    ensures Matches(OfFamily(values, family), a) <==> a.family == family && Matches(values, a)
  {
    if values != [] {
      var v, rest := values[0], values[1..];
      OfFamilyMatches(rest, family, a);
      MaskKeepsMembers(v, a);
      var r := OfFamily(values, family);
      assert Matches(values, a) <==> Contains(v, a) || Matches(rest, a) by {
        if Matches(rest, a) {
          var i :| 0 <= i < |rest| && Contains(rest[i], a);
          assert values[i + 1] == rest[i];
        }
      }
      if v.address.family == family {
        assert r[1..] == OfFamily(rest, family);
        assert Matches(r, a) <==> Contains(r[0], a) || Matches(r[1..], a) by {
          if Matches(r[1..], a) {
            var i :| 0 <= i < |r[1..]| && Contains(r[1..][i], a);
            assert r[i + 1] == r[1..][i];
          }
        }
      }
    }
  }

  function SplitFamily(values: seq<Prefix>, family: Family): (r: seq<Prefix>)
  {
    Compact(OfFamily(values, family))
  }

  lemma OfFamilySnoc(values: seq<Prefix>, v: Prefix, family: Family)
    ensures OfFamily(values + [v], family) ==
            OfFamily(values, family) + if v.address.family == family then [Masked(v)] else []
  {
    if values == [] {
      assert values + [v] == [v];
      assert [v][1..] == [];
    } else {
      assert (values + [v])[1..] == values[1..] + [v];
      OfFamilySnoc(values[1..], v, family);
    }
  }

  method SplitPrefixes(values: seq<Prefix>) returns (ipv4: seq<Prefix>, ipv6: seq<Prefix>)
    ensures ipv4 == SplitFamily(values, IPv4) && ipv6 == SplitFamily(values, IPv6)
  {
    ipv4, ipv6 := [], [];
    for i := 0 to |values|
      invariant ipv4 == OfFamily(values[..i], IPv4) && ipv6 == OfFamily(values[..i], IPv6)
    {
      var prefix := Masked(values[i]);
      assert values[..i + 1] == values[..i] + [values[i]];
      OfFamilySnoc(values[..i], values[i], IPv4);
      OfFamilySnoc(values[..i], values[i], IPv6);
      if prefix.address.family == IPv4 {
        ipv4 := ipv4 + [prefix];
      } else {
        ipv6 := ipv6 + [prefix];
      }
    }
    assert values[..|values|] == values;
    ipv4 := CompactPrefixes(ipv4);
    ipv6 := CompactPrefixes(ipv6);
  }

  /** A family's split list matches exactly that family's addresses among the sources. */
  lemma SplitMatches(values: seq<Prefix>, family: Family, a: Address)
    ensures Matches(SplitFamily(values, family), a) <==> a.family == family && Matches(values, a)
  {
    OfFamilyMatches(values, family, a);
    CompactKeepsAddresses(OfFamily(values, family), a);
  }
}
