/** The exchange of a directory for one built beside it, on values: what a rename, the move of the recycle
    bin and their failures leave. daemon/internal/deployment/files.go:83-110, 415-443 */
module DeploySwap {
  import opened FileTree
  import Recycle

  predicate IsRecycleBinPath(rel: Path) {
    Recycle.BIN <= rel
  }

  predicate Apart(p: Path, q: Path) {
    !(p <= q) && !(q <= p)
  }

  /** The directory at to holds exactly what the one at from held, with its recycle bin or but for it. */
  ghost predicate SameDirectory(t: Tree, from: Path, u: Tree, to: Path, bin: bool) {
    forall rel :: bin || !IsRecycleBinPath(rel) ==> SamePlace(t, from + rel, u, to + rel)
  }

  ghost predicate SamePlace(t: Tree, p: Path, u: Tree, q: Path) {
    (p in t <==> q in u) && (p in t && q in u ==> u[q] == t[p])
  }

  /** The directory is whole where it was or in the backup. */
  ghost predicate Survives(t: Tree, target: Path, backup: Path, u: Tree, bin: bool) {
    SameDirectory(t, target, u, target, bin) || SameDirectory(t, target, u, backup, bin)
  }

  /** Only the three directories of a deployment may differ. */
  ghost predicate Elsewhere(t: Tree, u: Tree, target: Path, temp: Path, backup: Path) {
    forall p :: !(target <= p) && !(temp <= p) && !(backup <= p) ==> SamePlace(t, p, u, p)
  }

  /** What preserveRecycleBin does when it succeeds; it does nothing unless it saw the old directory. */
  ghost predicate BinMoved(t: Tree, u: Tree, backup: Path, temp: Path, seen: bool) {
    if seen && backup + Recycle.BIN in t then
      temp + Recycle.BIN !in t && u == Moved(t, backup + Recycle.BIN, temp + Recycle.BIN)
    else
      u == t
  }

  /** The old recycle bin with the rest of the built directory. */
  ghost predicate Swapped(t: Tree, target: Path, temp: Path, u: Tree, seen: bool) {
    forall rel ::
      if seen && IsRecycleBinPath(rel) && target + Recycle.BIN in t then SamePlace(t, target + rel, u, target + rel)
      else SamePlace(t, temp + rel, u, target + rel)
  }

  /** A rename takes the whole directory along. */
  lemma RenameCarries(t: Tree, src: Path, dst: Path)
    ensures SameDirectory(t, src, Moved(t, src, dst), dst, true)
  {
    forall rel ensures SamePlace(t, src + rel, Moved(t, src, dst), dst + rel) {
      MovedLookup(t, src, dst, dst + rel);
      assert (dst + rel)[|dst|..] == rel;
    }
  }

  lemma RenameLeaves(t: Tree, src: Path, dst: Path, other: Path)
    requires Apart(src, other) && Apart(dst, other)
    ensures SameDirectory(t, other, Moved(t, src, dst), other, true)
  {
    forall rel ensures SamePlace(t, other + rel, Moved(t, src, dst), other + rel) {
      MovedLookup(t, src, dst, other + rel);
      PrefixesCompare(src, other, other + rel);
      PrefixesCompare(dst, other, other + rel);
    }
  }

  lemma RenameIsElsewhere(t: Tree, src: Path, dst: Path, target: Path, temp: Path, backup: Path)
    requires (target <= src || temp <= src || backup <= src) && (target <= dst || temp <= dst || backup <= dst)
    ensures Elsewhere(t, Moved(t, src, dst), target, temp, backup)
  {
    forall p | !(target <= p) && !(temp <= p) && !(backup <= p) ensures SamePlace(t, p, Moved(t, src, dst), p) {
      assert !(src <= p) && !(dst <= p) by {
        var root := if target <= src then target else if temp <= src then temp else backup;
        var root' := if target <= dst then target else if temp <= dst then temp else backup;
        PrefixTransitive(root, src, p);
        PrefixTransitive(root', dst, p);
      }
      MovedLookup(t, src, dst, p);
    }
  }

  lemma CarriedTwice(t: Tree, a: Path, u: Tree, b: Path, v: Tree, c: Path, first: bool, second: bool)
    requires SameDirectory(t, a, u, b, first) && SameDirectory(u, b, v, c, second)
    ensures SameDirectory(t, a, v, c, first && second)
  {
    forall rel | (first && second) || !IsRecycleBinPath(rel) ensures SamePlace(t, a + rel, v, c + rel) {
      assert SamePlace(t, a + rel, u, b + rel) && SamePlace(u, b + rel, v, c + rel);
    }
  }

  lemma ElsewhereTwice(t: Tree, u: Tree, v: Tree, target: Path, temp: Path, backup: Path)
    requires Elsewhere(t, u, target, temp, backup) && Elsewhere(u, v, target, temp, backup)
    ensures Elsewhere(t, v, target, temp, backup)
  {
    forall p | !(target <= p) && !(temp <= p) && !(backup <= p) ensures SamePlace(t, p, v, p) {
      assert SamePlace(t, p, u, p) && SamePlace(u, p, v, p);
    }
  }

  lemma SidesDiffer(p: Path, q: Path, a: Path, b: Path)
    requires Apart(p, q)
    ensures Apart(p + a, q + b) && !(p <= q + b) && !(q <= p + a)
  {
    PrefixesCompare(p, q, q + b);
    PrefixesCompare(p, q, p + a);
    PrefixTransitive(p, p + a, q + b);
    PrefixTransitive(q, q + b, p + a);
  }

  lemma BinBelow(root: Path, rel: Path)
    ensures root + Recycle.BIN <= root + rel <==> IsRecycleBinPath(rel)
    ensures IsRecycleBinPath(rel) ==> root + rel == root + Recycle.BIN + rel[|Recycle.BIN|..]
  {
    if root + Recycle.BIN <= root + rel {
      assert Recycle.BIN == (root + Recycle.BIN)[|root|..] == (root + rel)[..|root| + |Recycle.BIN|][|root|..] == rel[..|Recycle.BIN|];
    }
    if IsRecycleBinPath(rel) { assert rel == Recycle.BIN + rel[|Recycle.BIN|..]; }
  }

  /** Moving the bin changes nothing but the bins of the two directories. */
  lemma BinMoveKeepsRest(t: Tree, u: Tree, backup: Path, temp: Path, seen: bool)
    requires BinMoved(t, u, backup, temp, seen) && Apart(backup, temp)
    ensures SameDirectory(t, backup, u, backup, false) && SameDirectory(t, temp, u, temp, false)
  {
    forall rel | !IsRecycleBinPath(rel)
      ensures SamePlace(t, backup + rel, u, backup + rel) && SamePlace(t, temp + rel, u, temp + rel)
    {
      BinBelow(backup, rel);
      BinBelow(temp, rel);
      SidesDiffer(backup, temp, Recycle.BIN, rel);
      SidesDiffer(temp, backup, Recycle.BIN, rel);
      MovedLookup(t, backup + Recycle.BIN, temp + Recycle.BIN, backup + rel);
      MovedLookup(t, backup + Recycle.BIN, temp + Recycle.BIN, temp + rel);
    }
  }

  /** After the move the new directory has the old bin, and the old one has none. */
  lemma BinMoveTakes(t: Tree, u: Tree, backup: Path, temp: Path, rel: Path, seen: bool)
    requires BinMoved(t, u, backup, temp, seen) && Apart(backup, temp) && WellFormed(t)
    requires IsRecycleBinPath(rel)
    ensures seen ==> backup + rel !in u
    ensures if seen && backup + Recycle.BIN in t then SamePlace(t, backup + rel, u, temp + rel) else SamePlace(t, temp + rel, u, temp + rel)
  {
    BinBelow(backup, rel);
    BinBelow(temp, rel);
    if seen && backup + Recycle.BIN in t {
      SidesDiffer(backup, temp, Recycle.BIN, rel);
      SidesDiffer(temp, backup, Recycle.BIN, rel);
      MovedLookup(t, backup + Recycle.BIN, temp + Recycle.BIN, backup + rel);
      MovedLookup(t, backup + Recycle.BIN, temp + Recycle.BIN, temp + rel);
      assert (temp + rel)[|temp + Recycle.BIN|..] == rel[|Recycle.BIN|..];
    } else if backup + rel in t {
      AncestorsExist(t, backup + rel, backup + Recycle.BIN);
    }
  }

  lemma BinMoveIsElsewhere(t: Tree, u: Tree, target: Path, temp: Path, backup: Path, seen: bool)
    requires BinMoved(t, u, backup, temp, seen)
    ensures Elsewhere(t, u, target, temp, backup)
  {
    if seen && backup + Recycle.BIN in t {
      RenameIsElsewhere(t, backup + Recycle.BIN, temp + Recycle.BIN, target, temp, backup);
    }
  }

  /** The exchange goes through, if no call fails: both directories are there, and the old one has no
      bin, or a directory for which the new one has room. */
  ghost predicate Exchangeable(t: Tree, target: Path, temp: Path) {
    && target in t && temp in t
    && (target + Recycle.BIN in t ==> t[target + Recycle.BIN] == Dir && temp + Recycle.BIN !in t)
  }

  /** What is where once the old directory is away. */
  lemma AwayFacts(t: Tree, away: Tree, target: Path, temp: Path, backup: Path)
    requires Distinct(target, temp, backup) && WellFormed(t) && target in t && target != [] && away == Moved(t, target, backup)
    ensures backup in away && away[backup] == t[target] && target !in away && HasParent(away, target)
    ensures SamePlace(t, temp, away, temp)
    ensures SamePlace(t, target + Recycle.BIN, away, backup + Recycle.BIN)
    ensures SamePlace(t, temp + Recycle.BIN, away, temp + Recycle.BIN)
  {
    RenameCarries(t, target, backup);
    RenameLeaves(t, target, backup, temp);
    assert target + [] == target && backup + [] == backup && temp + [] == temp;
    assert SamePlace(t, target + [], away, backup + []) && SamePlace(t, temp + [], away, temp + []);
    MovedLookup(t, target, backup, target);
    MovedLookup(t, target, backup, Parent(target));
    assert backup <= Parent(target) ==> backup <= target;
  }

  lemma BinMoveFacts(away: Tree, moved: Tree, target: Path, temp: Path, backup: Path, seen: bool)
    requires Distinct(target, temp, backup) && BinMoved(away, moved, backup, temp, seen) && target != []
    ensures backup in moved <==> backup in away
    ensures temp in moved <==> temp in away
    ensures target in moved <==> target in away
    ensures HasParent(moved, target) <==> HasParent(away, target)
  {
    if seen && backup + Recycle.BIN in away {
      var src, dst := backup + Recycle.BIN, temp + Recycle.BIN;
      MovedLookup(away, src, dst, backup);
      MovedLookup(away, src, dst, temp);
      MovedLookup(away, src, dst, target);
      MovedLookup(away, src, dst, Parent(target));
      PrefixTransitive(backup, src, Parent(target));
      PrefixTransitive(temp, dst, Parent(target));
      PrefixTransitive(Parent(target), Parent(target), target);
      assert Parent(target) <= target;
      PrefixTransitive(backup, Parent(target), target);
      PrefixTransitive(temp, Parent(target), target);
      PrefixTransitive(backup, src, target);
      PrefixTransitive(temp, dst, target);
      PrefixTransitive(temp, dst, backup);
      PrefixTransitive(backup, src, temp);
      assert |src| > |backup| && |dst| > |temp|;
    }
  }

  ghost predicate Distinct(target: Path, temp: Path, backup: Path) {
    Apart(target, temp) && Apart(target, backup) && Apart(temp, backup)
  }

  /** The three renames together. */
  lemma SwapSucceeds(t: Tree, away: Tree, moved: Tree, u: Tree, target: Path, temp: Path, backup: Path, seen: bool)
    requires Distinct(target, temp, backup) && WellFormed(away)
    requires away == Moved(t, target, backup) && BinMoved(away, moved, backup, temp, seen) && u == Moved(moved, temp, target)
    ensures Swapped(t, target, temp, u, seen)
  {
    hide SamePlace, BinMoved;
    RenameCarries(t, target, backup);
    RenameLeaves(t, target, backup, temp);
    BinMoveKeepsRest(away, moved, backup, temp, seen);
    RenameCarries(moved, temp, target);
    forall rel
      ensures if seen && IsRecycleBinPath(rel) && target + Recycle.BIN in t then SamePlace(t, target + rel, u, target + rel)
        else SamePlace(t, temp + rel, u, target + rel)
    {
      assert SamePlace(t, target + rel, away, backup + rel) && SamePlace(t, target + Recycle.BIN, away, backup + Recycle.BIN);
      assert SamePlace(t, temp + rel, away, temp + rel) && SamePlace(moved, temp + rel, u, target + rel);
      if IsRecycleBinPath(rel) { BinMoveTakes(away, moved, backup, temp, rel, seen); }
      SwappedAt(t, away, moved, u, target, temp, backup, rel, seen);
    }
  }

  lemma SwappedAt(t: Tree, away: Tree, moved: Tree, u: Tree, target: Path, temp: Path, backup: Path, rel: Path, seen: bool)
    requires SamePlace(t, target + rel, away, backup + rel) && SamePlace(t, target + Recycle.BIN, away, backup + Recycle.BIN)
    requires SamePlace(t, temp + rel, away, temp + rel) && SamePlace(moved, temp + rel, u, target + rel)
    requires !IsRecycleBinPath(rel) ==> SamePlace(away, temp + rel, moved, temp + rel)
    requires IsRecycleBinPath(rel) ==>
      if seen && backup + Recycle.BIN in away then SamePlace(away, backup + rel, moved, temp + rel) else SamePlace(away, temp + rel, moved, temp + rel)
    ensures if seen && IsRecycleBinPath(rel) && target + Recycle.BIN in t then SamePlace(t, target + rel, u, target + rel)
      else SamePlace(t, temp + rel, u, target + rel)
  {
  }

  /** Renaming into a free place with no old directory there. */
  lemma FreshSwap(t: Tree, target: Path, temp: Path, seen: bool)
    requires target !in t && WellFormed(t)
    ensures Swapped(t, target, temp, Moved(t, temp, target), seen)
  {
    if target + Recycle.BIN in t { AncestorsExist(t, target + Recycle.BIN, target); }
    RenameCarries(t, temp, target);
  }

  /** The old directory away in the backup, its bin perhaps in the new one, and perhaps brought back. */
  lemma RollBack(t: Tree, away: Tree, u: Tree, back: Tree, target: Path, temp: Path, backup: Path, bin: bool)
    requires Distinct(target, temp, backup) && away == Moved(t, target, backup)
    requires SameDirectory(away, backup, u, backup, bin) && (back == u || back == Moved(u, backup, target))
    ensures Survives(t, target, backup, back, bin)
    ensures back == Moved(u, backup, target) ==> SameDirectory(t, target, back, target, bin)
  {
    hide SamePlace, SameDirectory;
    RenameCarries(t, target, backup);
    CarriedTwice(t, target, away, backup, u, backup, true, bin);
    if back == Moved(u, backup, target) {
      RenameCarries(u, backup, target);
      CarriedTwice(t, target, u, backup, back, target, bin, true);
    }
  }

  /** Once the bin has moved, neither the old directory nor a rollback has it. */
  lemma NoBinLeft(t: Tree, away: Tree, moved: Tree, back: Tree, target: Path, temp: Path, backup: Path, rel: Path)
    requires Distinct(target, temp, backup) && away == Moved(t, target, backup) && WellFormed(away) && IsRecycleBinPath(rel)
    requires BinMoved(away, moved, backup, temp, true) && (back == moved || back == Moved(moved, backup, target))
    ensures backup + rel !in back && target + rel !in back
  {
    BinMoveTakes(away, moved, backup, temp, rel, true);
    SidesDiffer(target, backup, rel, rel);
    SidesDiffer(target, temp, rel, Recycle.BIN);
    SidesDiffer(target, backup, rel, Recycle.BIN);
    MovedLookup(t, target, backup, target + rel);
    MovedLookup(away, backup + Recycle.BIN, temp + Recycle.BIN, target + rel);
    MovedLookup(moved, backup, target, backup + rel);
    MovedLookup(moved, backup, target, target + rel);
    assert (target + rel)[|target|..] == rel;
  }

  ghost predicate NoBin(t: Tree, root: Path) {
    forall rel :: IsRecycleBinPath(rel) ==> root + rel !in t
  }

  lemma BinIsGone(t: Tree, away: Tree, moved: Tree, back: Tree, target: Path, temp: Path, backup: Path)
    requires Distinct(target, temp, backup) && away == Moved(t, target, backup) && WellFormed(away)
    requires BinMoved(away, moved, backup, temp, true) && (back == moved || back == Moved(moved, backup, target))
    ensures NoBin(back, target) && NoBin(back, backup)
  {
    hide BinMoved, Moved;
    forall rel | IsRecycleBinPath(rel) ensures target + rel !in back && backup + rel !in back {
      NoBinLeft(t, away, moved, back, target, temp, backup, rel);
    }
  }

  lemma BinStays(t: Tree, u: Tree, backup: Path, temp: Path, seen: bool)
    requires BinMoved(t, u, backup, temp, seen) && Apart(backup, temp)
    ensures SameDirectory(t, backup, u, backup, !seen)
  {
    if seen { BinMoveKeepsRest(t, u, backup, temp, seen); } else { SameItself(t, backup); }
  }

  lemma SameItself(t: Tree, root: Path)
    ensures SameDirectory(t, root, t, root, true)
  {
  }

  lemma Unmoved(t: Tree, target: Path, temp: Path, backup: Path)
    ensures Survives(t, target, backup, t, true) && Elsewhere(t, t, target, temp, backup)
  {
    SameItself(t, target);
  }

  lemma RolledBackElsewhere(t: Tree, u: Tree, back: Tree, target: Path, temp: Path, backup: Path)
    requires Elsewhere(t, u, target, temp, backup) && (back == u || back == Moved(u, backup, target))
    ensures Elsewhere(t, back, target, temp, backup)
  {
    hide SamePlace, Elsewhere;
    if back != u {
      RenameIsElsewhere(u, backup, target, target, temp, backup);
      ElsewhereTwice(t, u, back, target, temp, backup);
    }
  }

  lemma SurvivesLater(t: Tree, u: Tree, v: Tree, target: Path, backup: Path, bin: bool)
    requires SameDirectory(t, target, u, target, true) && Survives(u, target, backup, v, bin)
    ensures Survives(t, target, backup, v, bin)
  {
    hide SameDirectory;
    if SameDirectory(u, target, v, target, bin) {
      CarriedTwice(t, target, u, target, v, target, true, bin);
    } else {
      CarriedTwice(t, target, u, target, v, backup, true, bin);
    }
  }

  /** The directory is at home later if it was in between. */
  lemma HomeLater(t: Tree, u: Tree, v: Tree, target: Path, bin: bool)
    requires SameDirectory(t, target, u, target, true)
    ensures SameDirectory(u, target, v, target, bin) ==> SameDirectory(t, target, v, target, bin)
  {
    hide SameDirectory;
    if SameDirectory(u, target, v, target, bin) { CarriedTwice(t, target, u, target, v, target, true, bin); }
  }

  lemma StillHome(t: Tree, u: Tree, v: Tree, target: Path, bin: bool)
    requires SameDirectory(u, target, v, target, true)
    ensures SameDirectory(t, target, u, target, bin) ==> SameDirectory(t, target, v, target, bin)
  {
    hide SameDirectory;
    if SameDirectory(t, target, u, target, bin) { CarriedTwice(t, target, u, target, v, target, bin, true); }
  }

  lemma StillSurvives(t: Tree, u: Tree, v: Tree, target: Path, backup: Path, bin: bool)
    requires Survives(t, target, backup, u, bin)
    requires SameDirectory(u, target, v, target, true) && SameDirectory(u, backup, v, backup, true)
    ensures Survives(t, target, backup, v, bin)
  {
    hide SameDirectory;
    if SameDirectory(t, target, u, target, bin) {
      CarriedTwice(t, target, u, target, v, target, bin, true);
    } else {
      CarriedTwice(t, target, u, backup, v, backup, bin, true);
    }
  }

  lemma StillNoBin(t: Tree, u: Tree, target: Path, backup: Path)
    requires NoBin(t, target) && NoBin(t, backup)
    requires SameDirectory(t, target, u, target, true) && SameDirectory(t, backup, u, backup, true)
    ensures NoBin(u, target) && NoBin(u, backup)
  {
    forall rel | IsRecycleBinPath(rel) ensures target + rel !in u && backup + rel !in u {
      assert SamePlace(t, target + rel, u, target + rel) && SamePlace(t, backup + rel, u, backup + rel);
    }
  }

  lemma NoBinWithout(t: Tree, root: Path)
    requires WellFormed(t) && root !in t
    ensures NoBin(t, root)
  {
    forall rel | IsRecycleBinPath(rel) ensures root + rel !in t {
      if root + rel in t { AncestorsExist(t, root + rel, root); }
    }
  }

  /** Removing below one directory leaves the others. */
  ghost predicate RemovedBelow(t: Tree, u: Tree, root: Path) {
    && (forall q :: q in u ==> q in t && u[q] == t[q])
    && (forall q :: q in t && !(root <= q) ==> q in u)
  }

  lemma RemovedLeaves(t: Tree, u: Tree, root: Path, other: Path)
    requires RemovedBelow(t, u, root) && Apart(root, other)
    ensures SameDirectory(t, other, u, other, true)
  {
    forall rel ensures SamePlace(t, other + rel, u, other + rel) {
      SidesDiffer(root, other, [], rel);
    }
  }

  lemma RemovedTemp(t: Tree, u: Tree, target: Path, temp: Path, backup: Path)
    requires Distinct(target, temp, backup) && RemovedBelow(t, u, temp)
    ensures SameDirectory(t, target, u, target, true) && SameDirectory(t, backup, u, backup, true)
    ensures Elsewhere(t, u, target, temp, backup)
  {
    RemovedLeaves(t, u, temp, target);
    RemovedLeaves(t, u, temp, backup);
  }

  lemma RemovedElsewhere(t: Tree, u: Tree, target: Path, temp: Path, backup: Path)
    requires Distinct(target, temp, backup) && RemovedBelow(t, u, backup)
    ensures SameDirectory(t, target, u, target, true) && Elsewhere(t, u, target, temp, backup)
  {
    RemovedLeaves(t, u, backup, target);
  }
}
