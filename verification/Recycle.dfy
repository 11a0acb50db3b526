/** The recycle bin, and the file operations that publish through it. The file system may fail at any
    call and with any class of error; what matters is that no file gets lost on the way.
    daemon/internal/files/recycle.go, daemon/internal/files/service.go:250-427, 863-892 */
module Recycle {
  import opened FileTree
  import opened Options

  const RECYCLE_BIN: Name := ".prism-recycle-bin"
  const BIN: Path := [RECYCLE_BIN]
  const DATA: Name := "data"
  const MANIFEST: Name := "manifest.json"

  datatype Code =
    | InvalidRequest | PathEscape | FileNotFound | FileExists | FileChanged | FileTooLarge
    | SizeMismatch | HashMismatch | RecursiveRequired | ReadFailed | WriteFailed | OperationFailed

  /** notExist tells whether errors.Is(err, os.ErrNotExist) holds of the error. */
  datatype Error = Error(code: Code, notExist: bool)

  datatype Outcome = Done | Failed(error: Error)

  function FileError(status: Status): Error {
    if status == NotExist then Error(FileNotFound, true) else Error(OperationFailed, false)
  }

  function Wrapped(code: Code, status: Status): Error {
    Error(code, status == NotExist)
  }

  predicate InBin(p: Path) {
    BIN <= p
  }

  predicate ValidId(id: Name) {
    id != "" && '/' !in id && '\\' !in id && id != "." && id != ".."
  }

  /** Something that is not a directory on the way to a path, or a symbolic link at it. */
  predicate Blocked(t: Tree, p: Path) {
    exists i :: 1 <= i <= |p| && p[..i] in t && (t[p[..i]] == Symlink || (i < |p| && t[p[..i]] != Dir))
  }

  /** The first n names of a path lead through directories, and not to a symbolic link. */
  ghost predicate Reached(t: Tree, p: Path, n: nat) {
    n <= |p| && forall j :: 0 <= j <= n ==> p[..j] in t && t[p[..j]] != Symlink && (j < |p| ==> t[p[..j]] == Dir)
  }

  lemma ReachedStart(t: Tree, p: Path)
    requires WellFormed(t)
    ensures Reached(t, p, 0)
  {
    assert p[..0] == [];
  }

  lemma ReachedMore(t: Tree, p: Path, n: nat)
    requires Reached(t, p, n) && n < |p|
    requires p[..n + 1] in t && t[p[..n + 1]] != Symlink && (n + 1 < |p| ==> t[p[..n + 1]] == Dir)
    ensures Reached(t, p, n + 1)
  {
  }

  lemma ReachedEnd(t: Tree, p: Path)
    requires Reached(t, p, |p|)
    ensures p in t && t[p] != Symlink && !Blocked(t, p)
  {
    assert p[..|p|] == p;
  }

  lemma ReachedStop(t: Tree, p: Path, n: nat)
    requires WellFormed(t) && Reached(t, p, n) && n < |p| && p[..n + 1] !in t
    ensures !Blocked(t, p) && p !in t && (HasParent(t, p) <==> n + 1 == |p|)
  {
    forall i | n < i <= |p| ensures p[..i] !in t {
      assert p[..n + 1] == p[..i][..n + 1];
      if p[..i] in t { AncestorsExist(t, p[..i], p[..n + 1]); }
    }
    assert p[..|p|] == p && Parent(p) == p[..|p| - 1];
  }

  lemma BlockedOnTheWay(t: Tree, p: Path, i: nat)
    requires 1 <= i <= |p| && p[..i] in t && (t[p[..i]] == Symlink || (i < |p| && t[p[..i]] != Dir))
    ensures Blocked(t, p)
  {
  }

  lemma FreeWay(t: Tree, p: Path)
    requires WellFormed(t) && p != []
    ensures p in t ==> HasParent(t, p) && (Blocked(t, p) <==> t[p] == Symlink)
    ensures p !in t && HasParent(t, p) ==> !Blocked(t, p)
  {
    assert p[..|p|] == p && p[..|p| - 1] == Parent(p);
    forall i | 1 <= i < |p| && HasParent(t, p) ensures p[..i] in t && t[p[..i]] == Dir {
      assert p[..i] <= Parent(p);
      AncestorsExist(t, Parent(p), p[..i]);
    }
  }

  function EntryPath(id: Name): Path { [RECYCLE_BIN, id] }
  function DataPath(id: Name): Path { [RECYCLE_BIN, id, DATA] }
  function ManifestPath(id: Name): Path { [RECYCLE_BIN, id, MANIFEST] }

  /** Everything is still there; anything new is in the bin, and no file. */
  ghost predicate GrowsInBin(before: Tree, after: Tree) {
    && (forall p :: p in before ==> p in after && after[p] == before[p])
    && (forall p :: p in after && p !in before ==> InBin(p) && !after[p].File?)
  }

  /** Files in the bin are the recycled ones: each lies at or below the data of an entry. */
  predicate BinTidy(t: Tree) {
    forall p :: p in t && InBin(p) && t[p].File? ==> |p| >= 3 && p[2] == DATA
  }

  /** The tree with the entry directory and manifest of a recycled path, before it is moved. */
  ghost function WithEntry(t: Tree, id: Name, relative: Path): Tree
    requires relative in t
  {
    t[BIN := Dir][EntryPath(id) := Dir][ManifestPath(id) := FileTree.Manifest(relative, t[relative] == Dir)]
  }

  /** The tree after a path went to the bin. */
  ghost function Recycled(t: Tree, id: Name, relative: Path): Tree
    requires relative in t
  {
    Moved(WithEntry(t, id, relative), relative, DataPath(id))
  }

  /** A place in the bin a path may go to. */
  ghost predicate Recyclable(t: Tree, id: Name, relative: Path) {
    && WellFormed(t) && relative in t && relative != [] && !InBin(relative)
    && (BIN in t ==> t[BIN] == Dir)
    && EntryPath(id) !in t
  }

  /** What may be moved to the bin under this id, if no call fails. */
  ghost predicate CanRecycle(t: Tree, id: Name, relative: Path) {
    Recyclable(t, id, relative) && t[relative] != Symlink
  }

  lemma EntryIsFresh(t: Tree, id: Name, p: Path)
    requires WellFormed(t) && EntryPath(id) !in t && EntryPath(id) <= p
    ensures p !in t
  {
    if p in t { AncestorsExist(t, p, EntryPath(id)); }
  }

  lemma WithEntryGrows(t: Tree, id: Name, relative: Path)
    requires Recyclable(t, id, relative)
    ensures GrowsInBin(t, WithEntry(t, id, relative))
  {
    EntryIsFresh(t, id, EntryPath(id));
    EntryIsFresh(t, id, ManifestPath(id));
  }

  /** An entry can be filled once its directory is there. */
  lemma FillingFacts(before: Tree, id: Name, relative: Path)
    requires Recyclable(before, id, relative)
    ensures relative != [] && relative in before && !(relative <= DataPath(id))
    ensures var made := before[BIN := Dir][EntryPath(id) := Dir];
      && relative in made && made[relative] == before[relative]
      && ManifestPath(id) !in made && HasParent(made, ManifestPath(id))
      && WithEntry(before, id, relative) == made[ManifestPath(id) := FileTree.Manifest(relative, made[relative] == Dir)]
    ensures var w := WithEntry(before, id, relative);
      relative in w && HasParent(w, DataPath(id)) && DataPath(id) !in w
  {
    WithEntryFacts(before, id, relative);
    EntryIsFresh(before, id, ManifestPath(id));
    EntryIsFresh(before, id, EntryPath(id));
    assert relative[0] != RECYCLE_BIN;
    assert Parent(DataPath(id)) == EntryPath(id) && Parent(ManifestPath(id)) == EntryPath(id);
  }

  /** The entry cleared away again, in part or in whole. */
  lemma ClearedGrows(before: Tree, kept: Tree, after: Tree, id: Name, relative: Path)
    requires Recyclable(before, id, relative)
    requires kept == before[BIN := Dir][EntryPath(id) := Dir] || kept == WithEntry(before, id, relative)
    requires forall p :: p in after ==> p in kept && after[p] == kept[p]
    requires forall p :: p in kept && !(EntryPath(id) <= p) ==> p in after
    ensures GrowsInBin(before, after)
  {
    forall p | p in before ensures p in after && after[p] == before[p] {
      if EntryPath(id) <= p { EntryIsFresh(before, id, p); }
    }
  }

  lemma WithEntryFacts(t: Tree, id: Name, relative: Path)
    requires Recyclable(t, id, relative)
    ensures WellFormed(WithEntry(t, id, relative))
    ensures GrowsInBin(t, WithEntry(t, id, relative))
    ensures forall p :: DataPath(id) <= p ==> p !in WithEntry(t, id, relative)
  {
    assert [] in t && t[[]] == Dir;
    hide FileTree.WellFormed, GrowsInBin;
    WithEntryGrows(t, id, relative);
    assert Parent(BIN) == [] && Parent(EntryPath(id)) == BIN && Parent(ManifestPath(id)) == EntryPath(id);
    AddIsWellFormed(t, BIN, Dir);
    AddIsWellFormed(t[BIN := Dir], EntryPath(id), Dir);
    EntryIsFresh(t, id, ManifestPath(id));
    AddIsWellFormed(t[BIN := Dir][EntryPath(id) := Dir], ManifestPath(id), FileTree.Manifest(relative, t[relative] == Dir));
    forall p | DataPath(id) <= p ensures p !in WithEntry(t, id, relative) {
      assert EntryPath(id) <= p && |p| >= 3 && p[2] == DATA && ManifestPath(id)[2] != DATA;
      EntryIsFresh(t, id, p);
    }
  }

  lemma RecycledOutside(t: Tree, id: Name, relative: Path, p: Path)
    requires Recyclable(t, id, relative) && !InBin(p)
    ensures p in Recycled(t, id, relative) <==> p in t && !(relative <= p)
    ensures p in Recycled(t, id, relative) ==> Recycled(t, id, relative)[p] == t[p]
  {
    MovedLookup(WithEntry(t, id, relative), relative, DataPath(id), p);
    BelowBinIsInBin(DataPath(id), p);
  }

  lemma BelowBinIsInBin(p: Path, q: Path)
    ensures InBin(p) && p <= q ==> InBin(q)
  {
  }

  /** A path that goes to the bin keeps every file. */
  lemma RecycledFacts(t: Tree, id: Name, relative: Path)
    requires Recyclable(t, id, relative)
    ensures WellFormed(Recycled(t, id, relative))
    ensures Files(t) <= Files(Recycled(t, id, relative))
  {
    var w := WithEntry(t, id, relative);
    WithEntryFacts(t, id, relative);
    assert !(relative <= DataPath(id)) by { assert relative[0] != RECYCLE_BIN; }
    assert Parent(DataPath(id)) == EntryPath(id);
    MovedIsWellFormed(w, relative, DataPath(id));
    MovedKeepsFiles(w, relative, DataPath(id));
    assert Files(t) <= Files(w);
  }

  // ----- restoring

  /** The tree after the data of an entry went to a free place and the entry was removed. */
  ghost function Restored(t: Tree, id: Name, original: Path): Tree {
    Without(Moved(t, DataPath(id), original), EntryPath(id))
  }

  lemma WithEntryLookup(t: Tree, id: Name, relative: Path, p: Path)
    requires Recyclable(t, id, relative)
    ensures p in Without(WithEntry(t, id, relative), EntryPath(id)) <==> p in t[BIN := Dir]
    ensures p in t[BIN := Dir] ==> Without(WithEntry(t, id, relative), EntryPath(id))[p] == t[BIN := Dir][p]
  {
    if EntryPath(id) <= p { EntryIsFresh(t, id, p); }
    assert EntryPath(id) <= ManifestPath(id);
  }

  lemma RecycledMovesBack(t: Tree, id: Name, relative: Path)
    requires Recyclable(t, id, relative)
    ensures Moved(Recycled(t, id, relative), DataPath(id), relative) == WithEntry(t, id, relative)
  {
    WithEntryFacts(t, id, relative);
    assert relative[0] != RECYCLE_BIN && DataPath(id)[0] == RECYCLE_BIN;
    assert relative in WithEntry(t, id, relative);
    MoveBack(WithEntry(t, id, relative), relative, DataPath(id));
  }

  lemma EntryLeavesNothing(t: Tree, id: Name, relative: Path)
    requires Recyclable(t, id, relative)
    ensures Without(WithEntry(t, id, relative), EntryPath(id)) == t[BIN := Dir]
  {
    forall p ensures (p in Without(WithEntry(t, id, relative), EntryPath(id)) <==> p in t[BIN := Dir])
      && (p in t[BIN := Dir] ==> Without(WithEntry(t, id, relative), EntryPath(id))[p] == t[BIN := Dir][p])
    {
      WithEntryLookup(t, id, relative, p);
    }
  }

  /** Deleting a path and restoring it is the identity, but for the bin having been created. */
  lemma RestoreUndoesRecycle(t: Tree, id: Name, relative: Path)
    requires Recyclable(t, id, relative)
    ensures Restored(Recycled(t, id, relative), id, relative) == t[BIN := Dir]
  {
    RecycledMovesBack(t, id, relative);
    EntryLeavesNothing(t, id, relative);
  }

  /** An entry with a valid manifest and content of the recorded kind. */
  ghost predicate Located(t: Tree, id: Name) {
    && ManifestPath(id) in t && t[ManifestPath(id)].Manifest?
    && t[ManifestPath(id)].originalPath != [] && !InBin(t[ManifestPath(id)].originalPath)
    && DataPath(id) in t
    && (if t[ManifestPath(id)].isDirectory then t[DataPath(id)] == Dir else t[DataPath(id)].File?)
  }

  /** One whose manifest names a free place. */
  ghost predicate Restorable(t: Tree, id: Name) {
    Located(t, id) && FreePlace(t, t[ManifestPath(id)].originalPath)
  }

  /** after is before with the data of an entry back where its manifest says, and the entry gone. */
  ghost predicate RestoredFrom(before: Tree, after: Tree, id: Name) {
    Restorable(before, id) && after == Restored(before, id, before[ManifestPath(id)].originalPath)
  }

  /** A free place outside the bin whose directory exists. */
  ghost predicate FreePlace(t: Tree, p: Path) {
    p != [] && !InBin(p) && p !in t && HasParent(t, p)
  }

  /** Outside the bin, anything new is at or below the place the manifest of the entry names. */
  ghost predicate NewBelowOriginal(before: Tree, after: Tree, id: Name) {
    forall p :: p in after && !InBin(p) && p !in before ==>
      ManifestPath(id) in before && before[ManifestPath(id)].Manifest? && before[ManifestPath(id)].originalPath <= p
  }

  lemma RestoreKeepsVisible(t: Tree, id: Name, original: Path)
    requires WellFormed(t) && original !in t && !InBin(original) && original != []
    ensures KeepsVisible(t, Restored(t, id, original))
  {
    forall p | p in t && !InBin(p)
      ensures p in Restored(t, id, original) && Restored(t, id, original)[p] == t[p]
    {
      MovedLookup(t, DataPath(id), original, p);
      BelowBinIsInBin(DataPath(id), p);
      BelowBinIsInBin(EntryPath(id), p);
      if original <= p { AncestorsExist(t, p, original); }
    }
  }

  /** A partial removal below a path without files to lose keeps the files. */
  lemma SubtreeBetween(t: Tree, after: Tree, p: Path)
    requires forall q :: q in after ==> q in t && after[q] == t[q]
    requires forall q :: q in t && !(p <= q) ==> q in after
    ensures Files(Without(t, p)) <= Files(after)
  {
    forall q | q in Without(t, p) ensures q in after && after[q] == Without(t, p)[q] {
    }
  }

  /** The entry is removed whole or in part once its data is back. */
  lemma MoveBackFacts(before: Tree, moved: Tree, after: Tree, id: Name, original: Path)
    requires WellFormed(before) && BinTidy(before)
    requires Restorable(before, id) && before[ManifestPath(id)].originalPath == original
    requires moved == Moved(before, DataPath(id), original)
    requires forall q :: q in after ==> q in moved && after[q] == moved[q]
    requires forall q :: q in moved && !(EntryPath(id) <= q) ==> q in after
    ensures Files(before) <= Files(after) && KeepsVisible(before, after) && NewBelowOriginal(before, after, id)
    ensures BinTidy(after)
  {
    RestoreKeepsFiles(before, id, original);
    SubtreeBetween(moved, after, EntryPath(id));
    RestoreKeepsVisible(before, id, original);
    forall p | p in after
      ensures p !in before ==> original <= p
      ensures InBin(p) ==> p in before && after[p] == before[p]
    {
      MovedLookup(before, DataPath(id), original, p);
      if original <= p { OutsideStaysOutside(original, p); }
    }
  }

  lemma RestoreAfterMaking(before: Tree, made: Tree, after: Tree, id: Name)
    requires made == before || (made == before[BIN := Dir] && (BIN in before ==> before[BIN] == Dir))
    requires Files(made) <= Files(after) && KeepsVisible(made, after) && NewBelowOriginal(made, after, id)
    ensures Files(before) <= Files(after) && KeepsVisible(before, after) && NewBelowOriginal(before, after, id)
  {
    AddKeepsFiles(before, BIN, if BIN in made then made[BIN] else Dir);
    assert ManifestPath(id) != BIN;
  }

  lemma OutsideStaysOutside(p: Path, q: Path)
    requires !InBin(p) && p != [] && p <= q
    ensures !InBin(q)
  {
    assert q[0] == p[0];
  }

  /** Restoring to a free place loses no file. */
  lemma RestoreKeepsFiles(t: Tree, id: Name, original: Path)
    requires WellFormed(t) && BinTidy(t) && original !in t && !InBin(original) && original != []
    ensures Files(t) <= Files(Restored(t, id, original))
    ensures BinTidy(Restored(t, id, original))
  {
    var r := Restored(t, id, original);
    forall p | p in t && t[p].File?
      ensures var q := Relocated(p, DataPath(id), original); q in r && r[q] == t[p]
    {
      RestoredFile(t, id, original, p);
    }
    forall p | p in r && InBin(p) ensures p in t && t[p] == r[p] {
      if original <= p { OutsideStaysOutside(original, p); }
      MovedLookup(t, DataPath(id), original, p);
    }
  }

  lemma DataBelowEntry(id: Name, p: Path)
    ensures EntryPath(id) <= p && |p| >= 3 && p[2] == DATA ==> DataPath(id) <= p
  {
    if EntryPath(id) <= p && |p| >= 3 && p[2] == DATA { assert p[..3] == DataPath(id); }
  }

  lemma RestoredFile(t: Tree, id: Name, original: Path, p: Path)
    requires WellFormed(t) && BinTidy(t) && original !in t && !InBin(original) && original != []
    requires p in t && t[p].File?
    ensures var q := Relocated(p, DataPath(id), original);
      q in Restored(t, id, original) && Restored(t, id, original)[q] == t[p]
  {
    var q := Relocated(p, DataPath(id), original);
    MovedLookup(t, DataPath(id), original, q);
    if DataPath(id) <= p {
      assert q[|original|..] == p[3..];
      assert DataPath(id) + p[3..] == p;
      OutsideStaysOutside(original, q);
      assert EntryPath(id) <= q ==> InBin(q);
    } else {
      if original <= p { AncestorsExist(t, p, original); }
      DataBelowEntry(id, p);
    }
  }

  // ----- publishing

  /** What publishWithRecycle is asked to run: atomicfile.Publish of a finished temporary file, or
      atomicfile.WriteFile through a temporary name. */
  datatype Publish = LinkFrom(temp: Path) | WriteThrough(temp: Path, data: Bytes)

  /** A temporary name beside the target, outside the bin and different from it. */
  predicate TempFor(temp: Path, relative: Path) {
    temp != [] && relative != [] && !InBin(relative) && !InBin(temp) && temp != relative && Parent(temp) == Parent(relative)
  }

  /** What a publication that succeeded did to the tree; number is the next file number. */
  ghost predicate Published(before: Tree, after: Tree, relative: Path, publish: Publish, number: nat) {
    match publish
    case LinkFrom(temp) =>
      && temp in before && before[temp].File? && relative !in before
      && after == before[relative := before[temp]] - {temp}
    case WriteThrough(temp, data) =>
      && temp !in before && (relative in before ==> before[relative] != Dir)
      && after == before[relative := File(number, data)]
  }

  /** What one that failed may have done: left a temporary file, or linked without unlinking. */
  ghost predicate NotPublished(before: Tree, after: Tree, relative: Path, publish: Publish) {
    || after == before
    || match publish
       case LinkFrom(temp) =>
         temp in before && before[temp].File? && relative !in before && after == before[relative := before[temp]]
       case WriteThrough(temp, _) =>
         temp !in before && temp in after && after == before[temp := after[temp]]
  }

  /** What can be published, if no call fails. */
  ghost predicate Publishable(t: Tree, relative: Path, publish: Publish)
    requires relative != []
  {
    && HasParent(t, relative)
    && match publish
       case LinkFrom(temp) => temp in t && t[temp].File? && relative !in t
       case WriteThrough(_, _) => relative in t ==> t[relative] != Dir
  }

  /** The same with the target moved to the bin first. */
  ghost predicate CanPublish(t: Tree, id: Name, relative: Path, publish: Publish)
    requires relative != []
  {
    && HasParent(t, relative) && (relative in t ==> CanRecycle(t, id, relative))
    && (publish.LinkFrom? ==> publish.temp in t && t[publish.temp].File?)
  }

  lemma FileIntoPlace(t: Tree, temp: Path, relative: Path, node: Node)
    requires WellFormed(t) && TempFor(temp, relative) && temp !in t
    requires relative in t ==> t[relative] != Dir
    ensures Moved(t[temp := node], temp, relative) == t[relative := node]
  {
    var w := t[temp := node];
    forall p ensures (p in Moved(w, temp, relative) <==> p in t[relative := node])
      && (p in t[relative := node] ==> Moved(w, temp, relative)[p] == t[relative := node][p])
    {
      MovedLookup(w, temp, relative, p);
      if relative <= p {
        assert |p| == |relative| ==> p == relative;
        if p in t { AncestorsExist(t, p, relative); }
        var q := temp + p[|relative|..];
        assert temp <= q;
        if q in t { AncestorsExist(t, q, temp); }
        assert |q| == |temp| ==> q == temp;
      } else if p in t && temp <= p {
        AncestorsExist(t, p, temp);
      }
    }
  }

  lemma WithoutFile(t: Tree, p: Path)
    requires WellFormed(t) && p in t && t[p] != Dir
    ensures Without(t, p) == t - {p}
  {
    forall q | q in t && p <= q ensures q == p {
      AncestorsExist(t, q, p);
    }
  }

  lemma PublishKeepsFiles(before: Tree, after: Tree, relative: Path, publish: Publish, number: nat)
    requires Published(before, after, relative, publish, number) && relative != publish.temp
    requires relative in before ==> !before[relative].File?
    ensures Files(before) <= Files(after)
  {
    forall p | p in before && before[p].File?
      ensures exists q :: q in after && after[q].File? && after[q] == before[p]
    {
      if publish.LinkFrom? && p == publish.temp {
        assert after[relative] == before[p];
      } else {
        assert after[p] == before[p];
      }
    }
  }

  lemma FailureKeepsFiles(before: Tree, after: Tree, relative: Path, publish: Publish)
    requires NotPublished(before, after, relative, publish)
    ensures Files(before) <= Files(after)
    ensures publish.LinkFrom? ==> KeepsVisible(before, after)
  {
    forall p | p in before && before[p].File? ensures p in after && after[p] == before[p] {
    }
  }

  /** Writing over a file that did not go to the bin loses it, unless the file has a second name. */
  lemma OverwritingLosesFile(before: Tree, after: Tree, relative: Path, publish: Publish, number: nat)
    requires Published(before, after, relative, publish, number)
    requires relative in before && before[relative].File?
    requires forall p :: p in before && before[p].File? ==> before[p].number < number
    requires forall p :: p in before && before[p].File? && p != relative ==> before[p].number != before[relative].number
    ensures !(Files(before) <= Files(after))
  {
    var lost := (before[relative].number, before[relative].data);
    assert lost in Files(before);
    forall q | q in after && after[q].File? ensures (after[q].number, after[q].data) != lost {
    }
  }

  /** The target is back at its place, or the file it was to be replaced by is there. */
  ghost predicate Undone(before: Tree, after: Tree, relative: Path, publish: Publish) {
    || Unchanged(before, after, publish.temp)
    || (publish.LinkFrom? && relative in after)
  }

  lemma RecyclableBeside(t: Tree, id: Name, relative: Path, temp: Path, node: Node)
    requires WellFormed(t) && WellFormed(t[temp := node]) && TempFor(temp, relative) && temp !in t && node.File?
    ensures CanRecycle(t[temp := node], id, relative) <==> CanRecycle(t, id, relative)
    ensures HasParent(t[temp := node], relative) <==> HasParent(t, relative)
  {
    assert Parent(relative) != temp by { assert Parent(temp) == Parent(relative); }
  }

  predicate Ordinary(node: Node) {
    node == Dir || node.File?
  }

  /** Where nothing has come to the place of a recycled target, its entry can be restored. */
  lemma CanUndo(before: Tree, failed: Tree, id: Name, relative: Path, publish: Publish)
    requires Recyclable(before, id, relative) && TempFor(publish.temp, relative) && BinTidy(before)
    requires NotPublished(Recycled(before, id, relative), failed, relative, publish)
    requires relative !in failed && Ordinary(before[relative])
    ensures BIN in failed && failed[BIN] == Dir && Restorable(failed[BIN := Dir], id)
  {
    hide Moved, Files, BinTidy;
    var w, ready := WithEntry(before, id, relative), Recycled(before, id, relative);
    RecycledIsTidy(before, id, relative);
    FailureKeepsBin(ready, failed, relative, publish, BIN);
    FailureKeepsBin(ready, failed, relative, publish, ManifestPath(id));
    MovedLookup(w, relative, DataPath(id), DataPath(id));
    assert relative + DataPath(id)[|DataPath(id)|..] == relative;
    FailureKeepsBin(ready, failed, relative, publish, DataPath(id));
    FailureLeavesTemp(ready, failed, relative, publish);
    ParentIsThere(before, id, relative);
    assert Parent(relative) != publish.temp by { assert Parent(publish.temp) == Parent(relative); }
    assert failed[BIN := Dir] == failed;
  }

  lemma ParentIsThere(t: Tree, id: Name, relative: Path)
    requires Recyclable(t, id, relative)
    ensures HasParent(Recycled(t, id, relative), relative)
  {
    RecycledOutside(t, id, relative, Parent(relative));
    assert !InBin(Parent(relative)) by {
      assert InBin(Parent(relative)) ==> InBin(relative);
    }
  }

  lemma RecycledIsPublishable(before: Tree, id: Name, relative: Path, publish: Publish)
    requires Recyclable(before, id, relative) && TempFor(publish.temp, relative)
    requires publish.WriteThrough? ==> publish.temp !in before
    ensures Publishable(Recycled(before, id, relative), relative, publish)
      <==> (publish.LinkFrom? ==> publish.temp in before && before[publish.temp].File?)
    ensures CanRecycle(before, id, relative) ==>
      (Publishable(Recycled(before, id, relative), relative, publish) <==> CanPublish(before, id, relative, publish))
  {
    ParentIsThere(before, id, relative);
    RecycledOutside(before, id, relative, relative);
    RecycledOutside(before, id, relative, publish.temp);
    assert relative <= publish.temp ==> relative == publish.temp;
  }

  /** The tree in front of a publication: the target in the bin, or at worst a bin that has grown. */
  ghost predicate Prepared(before: Tree, ready: Tree, id: Name, relative: Path, recycled: bool) {
    if recycled then Recyclable(before, id, relative) && before[relative] != Symlink && ready == Recycled(before, id, relative)
    else GrowsInBin(before, ready)
  }

  /** before with the bin created, but for what may be left at the temporary name. */
  ghost predicate Unchanged(before: Tree, after: Tree, temp: Path) {
    || after == before[BIN := Dir]
    || (temp in after && after == before[BIN := Dir][temp := after[temp]])
  }

  lemma PreparedFacts(before: Tree, ready: Tree, id: Name, relative: Path, recycled: bool)
    requires Prepared(before, ready, id, relative, recycled) && WellFormed(before) && BinTidy(before)
    ensures Files(before) <= Files(ready) && BinTidy(ready)
    ensures recycled ==> relative !in ready
    ensures !recycled && relative !in before && !InBin(relative) ==> relative !in ready
    ensures recycled ==> BIN in ready && ready[BIN] == Dir
    ensures recycled ==>
      ManifestPath(id) in ready && ready[ManifestPath(id)] == FileTree.Manifest(relative, before[relative] == Dir)
  {
    if recycled {
      RecycledFacts(before, id, relative);
      RecycledIsTidy(before, id, relative);
    }
  }

  lemma RecycledIsTidy(t: Tree, id: Name, relative: Path)
    requires Recyclable(t, id, relative) && BinTidy(t)
    ensures var r := Recycled(t, id, relative);
      && BinTidy(r) && BIN in r && r[BIN] == Dir
      && ManifestPath(id) in r && r[ManifestPath(id)] == FileTree.Manifest(relative, t[relative] == Dir)
  {
    hide Moved, Files;
    var w, r := WithEntry(t, id, relative), Recycled(t, id, relative);
    assert relative[0] != RECYCLE_BIN;
    MovedLookup(w, relative, DataPath(id), BIN);
    MovedLookup(w, relative, DataPath(id), ManifestPath(id));
    assert BIN != EntryPath(id) && ManifestPath(id)[2] != DATA;
    forall p | p in r && InBin(p) && r[p].File? ensures |p| >= 3 && p[2] == DATA {
      MovedLookup(w, relative, DataPath(id), p);
      assert w[ManifestPath(id)].Manifest? && w[EntryPath(id)] == Dir && w[BIN] == Dir;
    }
  }

  lemma PublishingKeepsTidy(before: Tree, after: Tree, relative: Path, publish: Publish, number: nat)
    requires BinTidy(before) && TempFor(publish.temp, relative)
    requires Published(before, after, relative, publish, number) || NotPublished(before, after, relative, publish)
    ensures BinTidy(after)
  {
    forall p | p in after && InBin(p) ensures p in before && after[p] == before[p] {
    }
  }

  lemma RestoredWithExtra(t: Tree, id: Name, original: Path, extra: Path, node: Node)
    requires TempFor(extra, original)
    ensures Restored(t[extra := node], id, original) == Restored(t, id, original)[extra := node]
  {
    hide Moved, Files;
    var a, b := Restored(t[extra := node], id, original), Restored(t, id, original)[extra := node];
    BelowBinIsInBin(DataPath(id), extra);
    BelowBinIsInBin(EntryPath(id), extra);
    assert original <= extra ==> original == extra;
    forall p ensures (p in a <==> p in b) && (p in b ==> a[p] == b[p]) {
      MovedLookup(t, DataPath(id), original, p);
      MovedLookup(t[extra := node], DataPath(id), original, p);
      BelowBinIsInBin(DataPath(id), DataPath(id) + p[if original <= p then |original| else 0..]);
    }
  }

  lemma PreparedKeepsTemp(before: Tree, ready: Tree, id: Name, relative: Path, recycled: bool, temp: Path)
    requires Prepared(before, ready, id, relative, recycled) && TempFor(temp, relative) && temp in before
    ensures temp in ready && ready[temp] == before[temp]
  {
    if recycled {
      MovedLookup(WithEntry(before, id, relative), relative, DataPath(id), temp);
      BelowBinIsInBin(DataPath(id), temp);
      assert relative <= temp ==> relative == temp;
    }
  }

  /** Removing a temporary file whose number is new since before leaves the files of before. */
  lemma RemovingTempKeepsFiles(before: Tree, left: Tree, temp: Path, number: nat)
    requires Files(before) <= Files(left)
    requires forall p :: p in before && before[p].File? ==> before[p].number < number
    requires temp !in before && (temp in left && left[temp].File? ==> left[temp].number >= number)
    ensures Files(before) <= Files(left - {temp})
  {
    forall f | f in Files(before) ensures f in Files(left - {temp}) {
      var q :| q in left && left[q].File? && f == (left[q].number, left[q].data);
      assert q != temp;
      assert (left - {temp})[q] == left[q];
    }
  }

  lemma PreparedKeepsTempFree(before: Tree, ready: Tree, id: Name, relative: Path, recycled: bool, temp: Path)
    requires Prepared(before, ready, id, relative, recycled) && TempFor(temp, relative)
    ensures temp !in before ==> temp !in ready
  {
    if recycled {
      MovedLookup(WithEntry(before, id, relative), relative, DataPath(id), temp);
      BelowBinIsInBin(DataPath(id), temp);
    }
  }

  lemma FailureKeepsBin(ready: Tree, failed: Tree, relative: Path, publish: Publish, p: Path)
    requires NotPublished(ready, failed, relative, publish) && TempFor(publish.temp, relative)
    requires InBin(p) && p in ready
    ensures p in failed && failed[p] == ready[p]
  {
  }

  lemma FailureLeavesTemp(ready: Tree, failed: Tree, relative: Path, publish: Publish)
    requires NotPublished(ready, failed, relative, publish) && relative !in failed
    ensures failed == ready || (publish.temp in failed && failed == ready[publish.temp := failed[publish.temp]])
  {
  }

  lemma RestoredAfterFailure(before: Tree, failed: Tree, id: Name, relative: Path, temp: Path)
    requires Recyclable(before, id, relative) && TempFor(temp, relative)
    requires failed == Recycled(before, id, relative) ||
      (temp in failed && failed == Recycled(before, id, relative)[temp := failed[temp]])
    ensures Unchanged(before, Restored(failed, id, relative), temp)
  {
    RestoreUndoesRecycle(before, id, relative);
    if failed != Recycled(before, id, relative) {
      RestoredWithExtra(Recycled(before, id, relative), id, relative, temp, failed[temp]);
    }
  }

  lemma RestoredByManifest(failed: Tree, after: Tree, id: Name, relative: Path, isDirectory: bool)
    requires BIN in failed && failed[BIN] == Dir && RestoredFrom(failed[BIN := Dir], after, id)
    requires ManifestPath(id) in failed && failed[ManifestPath(id)] == FileTree.Manifest(relative, isDirectory)
    ensures relative !in failed && after == Restored(failed, id, relative)
  {
    assert failed[BIN := Dir] == failed;
  }

  /** Where publishing failed and the entry could be restored, all is as it was. */
  lemma UndoneIsUnchanged(before: Tree, ready: Tree, failed: Tree, after: Tree, id: Name, relative: Path, publish: Publish)
    requires Recyclable(before, id, relative) && BinTidy(before) && TempFor(publish.temp, relative)
    requires ready == Recycled(before, id, relative)
    requires NotPublished(ready, failed, relative, publish)
    requires RestoredFrom(failed[BIN := Dir], after, id)
    ensures Unchanged(before, after, publish.temp)
  {
    RecycledIsTidy(before, id, relative);
    FailureKeepsBin(ready, failed, relative, publish, BIN);
    FailureKeepsBin(ready, failed, relative, publish, ManifestPath(id));
    RestoredByManifest(failed, after, id, relative, before[relative] == Dir);
    FailureLeavesTemp(ready, failed, relative, publish);
    RestoredAfterFailure(before, failed, id, relative, publish.temp);
  }

  /** The name os.CreateTemp picks beside the target. */
  predicate FreshTemp(t: Tree, temp: Path, relative: Path) {
    temp !in t && (relative != [] && !InBin(relative) ==> TempFor(temp, relative))
  }

  /** The file at p has no second name. */
  ghost predicate OneName(t: Tree, p: Path) {
    p in t && t[p].File? && forall q :: q in t && t[q].File? && q != p ==> t[q].number != t[p].number
  }

  /** The file read under the expected version was replaced by raw; if recycled, it is in the bin. */
  ghost predicate SavedOver(before: Tree, after: Tree, id: Name, relative: Path, raw: Option<Bytes>, expected: Option<Bytes>,
                            recycled: bool)
  {
    && relative in before && before[relative].File? && expected == Some(before[relative].data)
    && raw.Some? && relative in after && after[relative].File? && after[relative].data == raw.value
    && (recycled ==> DataPath(id) in after && after[DataPath(id)] == before[relative])
    && SameVisibleBut(before, after, relative)
  }

  /** What Upload accepts. */
  ghost predicate MayUpload(t: Tree, relative: Path, source: Bytes, expectedSize: int, expectedData: Option<Bytes>,
                            overwrite: bool, expected: Option<Bytes>, maxUpload: nat)
  {
    && relative != [] && !InBin(relative) && !Blocked(t, relative) && MayReplace(t, relative, overwrite, expected)
    && |source| == expectedSize <= maxUpload && (expectedData.Some? ==> source == expectedData.value)
  }

  /** What Save accepts. */
  ghost predicate MaySave(t: Tree, relative: Path, raw: Option<Bytes>, expected: Option<Bytes>, maxEdit: nat) {
    && relative in t && !InBin(relative) && t[relative].File? && expected == Some(t[relative].data)
    && raw.Some? && |raw.value| <= maxEdit
  }

  /** Outside the bin only what is at one path may differ. */
  ghost predicate SameVisibleBut(before: Tree, after: Tree, relative: Path) {
    forall p :: !InBin(p) && p != relative ==> (p in after <==> p in before) && (p in before ==> after[p] == before[p])
  }

  /** The file object at a path, if there is one. */
  ghost function FileAt(t: Tree, p: Path): set<(nat, Bytes)> {
    if p in t && t[p].File? then {(t[p].number, t[p].data)} else {}
  }

  lemma OverwritingLosesNoOther(before: Tree, ready: Tree, after: Tree, relative: Path, publish: Publish, number: nat)
    requires GrowsInBin(before, ready) && Published(ready, after, relative, publish, number) && publish.WriteThrough?
    ensures Files(before) <= Files(after) + FileAt(before, relative)
  {
    forall p | p in before && before[p].File? && p != relative ensures p in after && after[p] == before[p] {
    }
  }

  lemma BinGrowthKeepsFiles(before: Tree, after: Tree)
    requires GrowsInBin(before, after)
    ensures Files(before) == Files(after)
  {
  }

  lemma SavedElsewhere(before: Tree, ready: Tree, after: Tree, id: Name, relative: Path, publish: Publish, number: nat, recycled: bool)
    requires WellFormed(before) && relative in before && before[relative].File? && publish.WriteThrough?
    requires Prepared(before, ready, id, relative, recycled) && Published(ready, after, relative, publish, number)
    ensures SameVisibleBut(before, after, relative)
  {
    forall p | !InBin(p) && p != relative ensures (p in after <==> p in before) && (p in before ==> after[p] == before[p]) {
      if recycled {
        RecycledOutside(before, id, relative, p);
        if p in before && relative <= p { AncestorsExist(before, p, relative); }
      }
    }
  }

  lemma SavedFacts(before: Tree, ready: Tree, after: Tree, id: Name, relative: Path, publish: Publish, number: nat, recycled: bool)
    requires WellFormed(before) && BinTidy(before) && relative in before && before[relative].File?
    requires forall p :: p in before && before[p].File? ==> before[p].number < number
    requires TempFor(publish.temp, relative) && publish.WriteThrough?
    requires Prepared(before, ready, id, relative, recycled) && Published(ready, after, relative, publish, number)
    ensures SavedOver(before, after, id, relative, Some(publish.data), Some(before[relative].data), recycled)
    ensures !recycled && OneName(before, relative) ==> !(Files(before) <= Files(after))
    ensures Files(before) <= Files(after) + FileAt(before, relative)
  {
    hide Moved, Files, BinTidy, WellFormed;
    SavedElsewhere(before, ready, after, id, relative, publish, number, recycled);
    if recycled {
      PreparedFacts(before, ready, id, relative, recycled);
      PublishKeepsFiles(ready, after, relative, publish, number);
      MovedLookup(WithEntry(before, id, relative), relative, DataPath(id), DataPath(id));
      assert relative + DataPath(id)[|DataPath(id)|..] == relative;
      assert relative[0] != RECYCLE_BIN;
    } else {
      OverwritingLosesNoOther(before, ready, after, relative, publish, number);
      if OneName(before, relative) {
        OverwritingLosesFile(ready, after, relative, publish, number);
        BinGrowthKeepsFiles(before, ready);
      }
    }
  }

  /** Directories above a path of n names may have been added, nothing else. */
  ghost predicate OnlyNewDirs(before: Tree, after: Tree, n: nat) {
    && (forall p :: p in before ==> p in after && after[p] == before[p])
    && (forall p :: p in after && p !in before ==> after[p] == Dir && |p| < n && !InBin(p))
  }

  lemma NewDir(before: Tree, tree: Tree, relative: Path, current: Path)
    requires !InBin(relative) && current <= relative && |current| < |relative|
    ensures OnlyNewDirs(before, before, |relative|)
    ensures OnlyNewDirs(before, tree, |relative|) && current !in tree ==> OnlyNewDirs(before, tree[current := Dir], |relative|)
  {
  }

  /** The first n names of a path lead through directories. */
  ghost predicate MadeUpTo(t: Tree, p: Path, n: nat) {
    n <= |p| && forall j :: 0 <= j <= n ==> p[..j] in t && t[p[..j]] == Dir
  }

  lemma MadeNothing(t: Tree, p: Path)
    requires WellFormed(t)
    ensures MadeUpTo(t, p, 0)
  {
    assert p[..0] == [];
  }

  lemma MadeParent(t: Tree, p: Path, n: nat)
    requires MadeUpTo(t, p, n) && n < |p|
    ensures HasParent(t, p[..n + 1])
  {
    assert Parent(p[..n + 1]) == p[..n];
  }

  lemma MadeMore(t: Tree, u: Tree, p: Path, n: nat)
    requires MadeUpTo(t, p, n) && n < |p| && p[..n + 1] in u && u[p[..n + 1]] == Dir
    requires u == t || u == t[p[..n + 1] := Dir]
    ensures MadeUpTo(u, p, n + 1)
  {
  }

  /** With every directory on the way there, nothing had been in the way. */
  lemma MadeAll(before: Tree, t: Tree, p: Path)
    requires p != [] && MadeUpTo(t, p, |p| - 1) && OnlyNewDirs(before, t, |p|)
    ensures HasParent(t, p)
    ensures p !in before ==> p !in t && !Blocked(before, p)
  {
    assert p[..|p|] == p && Parent(p) == p[..|p| - 1];
    forall i | 1 <= i < |p| && p[..i] in before ensures before[p[..i]] == Dir {
      assert t[p[..i]] == before[p[..i]];
    }
  }

  lemma NewIsDir(before: Tree, t: Tree, n: nat, p: Path)
    requires OnlyNewDirs(before, t, n) && p in t && t[p] != Dir
    ensures p in before && before[p] == t[p]
  {
  }

  lemma RecyclableUnder(before: Tree, t: Tree, id: Name, relative: Path)
    requires OnlyNewDirs(before, t, |relative|) && WellFormed(before) && WellFormed(t)
    ensures relative in before ==> (CanRecycle(before, id, relative) <==> CanRecycle(t, id, relative))
    ensures relative in t <==> relative in before
    ensures relative in before ==> t[relative] == before[relative]
  {
  }

  /** Nothing outside the bin was taken away or replaced. */
  ghost predicate KeepsVisible(before: Tree, after: Tree) {
    forall p :: p in before && !InBin(p) ==> p in after && after[p] == before[p]
  }

  lemma KeepsVisibleTwice(t: Tree, u: Tree, v: Tree)
    ensures KeepsVisible(t, u) && KeepsVisible(u, v) ==> KeepsVisible(t, v)
  {
  }

  /** After a failed publication of a recycled target, the target was restored or something new is
      in its place. */
  lemma LeftUndone(before: Tree, ready: Tree, failed: Tree, after: Tree, relative: Path, publish: Publish)
    requires NotPublished(ready, failed, relative, publish) && KeepsVisible(failed, after) && TempFor(publish.temp, relative)
    requires relative !in ready && !InBin(relative) && (relative !in failed ==> Unchanged(before, after, publish.temp))
    ensures Undone(before, after, relative, publish)
  {
  }

  ghost predicate MayReplace(t: Tree, relative: Path, overwrite: bool, expected: Option<Bytes>) {
    relative in t ==> t[relative].File? && overwrite && (expected.Some? ==> t[relative].data == expected.value)
  }

  /** Whether a path lies at or below one of the first n. */
  ghost predicate BelowAny(paths: seq<Path>, n: nat, p: Path)
    requires n <= |paths|
  {
    exists i :: 0 <= i < n && paths[i] <= p
  }

  /** What Delete can move to the bin. */
  ghost predicate MayDelete(t: Tree, id: Name, relative: Path, recursive: bool) {
    CanRecycle(t, id, relative) && (t[relative] == Dir ==> recursive)
  }

  /** Outside the bin, what is left of before once the first n paths are gone. */
  ghost predicate DeletedFirst(before: Tree, after: Tree, paths: seq<Path>, n: nat)
    requires n <= |paths|
  {
    && (forall p :: !InBin(p) ==> (p in after <==> p in before && !BelowAny(paths, n, p)))
    && (forall p :: !InBin(p) && p in after ==> after[p] == before[p])
  }

  lemma BelowOneMore(paths: seq<Path>, n: nat, p: Path)
    requires n < |paths|
    ensures BelowAny(paths, n + 1, p) <==> BelowAny(paths, n, p) || paths[n] <= p
  {
  }

  lemma DeletedOneMore(before: Tree, mid: Tree, after: Tree, id: Name, paths: seq<Path>, n: nat)
    requires n < |paths| && DeletedFirst(before, mid, paths, n)
    requires Recyclable(mid, id, paths[n]) && after == Recycled(mid, id, paths[n])
    ensures DeletedFirst(before, after, paths, n + 1)
  {
    forall p | !InBin(p)
      ensures p in after <==> p in before && !BelowAny(paths, n + 1, p)
      ensures p in after ==> after[p] == before[p]
    {
      RecycledOutside(mid, id, paths[n], p);
      BelowOneMore(paths, n, p);
    }
  }

  ghost predicate BelowRoots(roots: set<Path>, p: Path) {
    exists r :: r in roots && r <= p
  }

  /** Nodes may have gone, but only at or below the roots. */
  ghost predicate PurgedOnly(before: Tree, after: Tree, roots: set<Path>) {
    && (forall p :: p in after ==> p in before && after[p] == before[p])
    && (forall p :: p in before && !BelowRoots(roots, p) ==> p in after)
  }

  /** The files of a tree at or below the roots. */
  ghost function FilesBelow(t: Tree, roots: set<Path>): set<(nat, Bytes)> {
    set p | p in t && t[p].File? && BelowRoots(roots, p) :: (t[p].number, t[p].data)
  }

  lemma BelowMoreRoots(roots: set<Path>, root: Path, p: Path)
    ensures BelowRoots(roots + {root}, p) <==> BelowRoots(roots, p) || root <= p
  {
    assert root in roots + {root};
    assert forall r :: r in roots ==> r in roots + {root};
  }

  ghost predicate RootsAmong(roots: set<Path>, ids: seq<Name>, n: nat)
    requires n <= |ids|
  {
    forall r :: r in roots ==> exists i :: 0 <= i < n && r == EntryPath(ids[i])
  }

  lemma RootsGrow(roots: set<Path>, ids: seq<Name>, n: nat)
    requires n < |ids| && RootsAmong(roots, ids, n)
    ensures RootsAmong(roots + {EntryPath(ids[n])}, ids, n + 1)
    ensures RootsAmong(roots, ids, n + 1)
  {
  }

  lemma RootsStay(roots: set<Path>, ids: seq<Name>, n: nat)
    requires n <= |ids| && RootsAmong(roots, ids, n)
    ensures RootsAmong(roots, ids, |ids|)
  {
  }

  /** Exactly the first n entries are gone. */
  ghost predicate PurgedFirst(before: Tree, after: Tree, ids: seq<Name>, n: nat)
    requires n <= |ids|
  {
    forall p ::
      && (p in after <==> p in before && forall i :: 0 <= i < n ==> !(EntryPath(ids[i]) <= p))
      && (p in after ==> after[p] == before[p])
  }

  lemma NothingPurged(t: Tree, ids: seq<Name>)
    ensures PurgedFirst(t, t, ids, 0) && PurgedOnly(t, t, {}) && RootsAmong({}, ids, 0)
  {
  }

  lemma PurgedNext(before: Tree, mid: Tree, after: Tree, ids: seq<Name>, n: nat)
    requires n < |ids| && PurgedFirst(before, mid, ids, n) && after == Without(mid, EntryPath(ids[n]))
    ensures PurgedFirst(before, after, ids, n + 1)
  {
  }

  lemma PurgeMore(before: Tree, mid: Tree, after: Tree, roots: set<Path>, root: Path)
    requires PurgedOnly(before, mid, roots)
    requires forall p :: p in after ==> p in mid && after[p] == mid[p]
    requires forall p :: p in mid && !(root <= p) ==> p in after
    ensures PurgedOnly(before, after, roots + {root})
  {
    forall p | p in before && !BelowRoots(roots + {root}, p) ensures p in after {
      BelowMoreRoots(roots, root, p);
    }
  }

  /** start may have gained the bin; then nodes went at or below the roots. */
  lemma PurgeFacts(start: Tree, after: Tree, roots: set<Path>)
    requires PurgedOnly(start[BIN := Dir], after, roots) && BinTidy(start) && (BIN in start ==> start[BIN] == Dir)
    requires forall r :: r in roots ==> InBin(r)
    ensures Files(start) <= Files(after) + FilesBelow(start, roots)
    ensures KeepsVisible(start, after) && BinTidy(after)
  {
    forall p | p in start && start[p].File? && !BelowRoots(roots, p) ensures p in after && after[p] == start[p] {
    }
    forall p | p in start && !InBin(p) ensures !BelowRoots(roots, p) {
      forall r | r in roots ensures !(r <= p) { BelowBinIsInBin(r, p); }
    }
  }

  lemma OnlyBinIsLeft(t: Tree)
    requires WellFormed(t) && forall p :: p in t && InBin(p) ==> |p| != 2
    ensures forall p :: p in t && InBin(p) ==> p == BIN
  {
    forall p | p in t && InBin(p) ensures |p| < 2 {
      if |p| >= 2 { EntryOfMember(t, p); }
    }
  }

  lemma EntryOfMember(t: Tree, p: Path)
    requires WellFormed(t) && p in t && InBin(p) && |p| >= 2
    ensures p[..2] in t && InBin(p[..2])
  {
    AncestorsExist(t, p, p[..2]);
  }

  // ----- runs

  datatype Request =
    | SaveRequest(relative: Path, raw: Option<Bytes>, expected: Option<Bytes>)
    | UploadRequest(relative: Path, source: Bytes, expectedSize: int, expectedData: Option<Bytes>, overwrite: bool,
                    expected: Option<Bytes>)
    | DeleteRequest(paths: seq<Path>, recursive: bool)
    | RestoreRequest(id: Name)
    | PurgeRequest(ids: seq<Name>)
    | ClearRequest

  ghost function EntryRoots(ids: seq<Name>): set<Path> {
    set i | 0 <= i < |ids| :: EntryPath(ids[i])
  }

  /** The files a request may cost for good: the one a Save writes over, and those in purged entries. */
  ghost function Stakes(t: Tree, request: Request): set<(nat, Bytes)> {
    match request
    case SaveRequest(relative, _, _) => FileAt(t, relative)
    case PurgeRequest(ids) => FilesBelow(t, EntryRoots(ids))
    case ClearRequest => FilesBelow(t, {BIN})
    case _ => {}
  }

  lemma FewerRoots(t: Tree, roots: set<Path>, ids: seq<Name>)
    requires RootsAmong(roots, ids, |ids|)
    ensures FilesBelow(t, roots) <= FilesBelow(t, EntryRoots(ids))
  {
    forall p | BelowRoots(roots, p) ensures BelowRoots(EntryRoots(ids), p) {
      var r :| r in roots && r <= p;
      assert r in EntryRoots(ids);
    }
  }

  /** The random names of a request. */
  datatype Names = Names(id: Name, ids: seq<Name>, temp: Path)

  predicate Drawn(names: Names, t: Tree, request: Request) {
    && ValidId(names.id)
    && match request
       case SaveRequest(relative, _, _) => FreshTemp(t, names.temp, relative)
       case UploadRequest(relative, _, _, _, _, _) => FreshTemp(t, names.temp, relative)
       case DeleteRequest(paths, _) => |names.ids| == |paths|
       case _ => true
  }

  datatype Limits = Limits(edit: nat, upload: nat)

  /** What a request that is done has done. */
  ghost predicate Did(before: Tree, after: Tree, request: Request, names: Names, overwrote: bool) {
    match request
    case SaveRequest(relative, raw, expected) => SavedOver(before, after, names.id, relative, raw, expected, !overwrote)
    case UploadRequest(relative, source, _, _, _, _) => relative in after && after[relative].File? && after[relative].data == source
    case DeleteRequest(paths, _) => 1 <= |paths| <= 100 && DeletedFirst(before, after, paths, |paths|)
    case RestoreRequest(id) => RestoredFrom(before[BIN := Dir], after, id)
    case PurgeRequest(ids) => 1 <= |ids| <= 100 && PurgedFirst(before[BIN := Dir], after, ids, |ids|)
    case ClearRequest => BIN in after && forall p :: p in after && InBin(p) ==> p == BIN
  }

  /** Why a request is refused if no call fails. */
  ghost predicate Refusable(before: Tree, after: Tree, request: Request, names: Names, limits: Limits) {
    match request
    case SaveRequest(relative, raw, expected) =>
      !(MaySave(before, relative, raw, expected, limits.edit) && CanRecycle(before, names.id, relative))
    case UploadRequest(relative, source, size, data, overwrite, expected) =>
      || !MayUpload(before, relative, source, size, data, overwrite, expected, limits.upload)
      || (relative in before && !CanRecycle(before, names.id, relative))
    case DeleteRequest(paths, recursive) =>
      || |paths| == 0 || |paths| > 100
      || exists k :: 0 <= k < |paths| && k < |names.ids| && !MayDelete(after, names.ids[k], paths[k], recursive)
    case RestoreRequest(id) =>
      !((BIN in before ==> before[BIN] == Dir) && ValidId(id) && Restorable(before[BIN := Dir], id))
    case PurgeRequest(ids) =>
      || |ids| == 0 || |ids| > 100 || (BIN in after && after[BIN] != Dir)
      || exists k :: 0 <= k < |ids| && !(ValidId(ids[k]) && Located(after, ids[k]))
    case ClearRequest => BIN in before && before[BIN] != Dir
  }

  class FileService {
    const disk: Disk
    const maxEdit: nat
    const maxUpload: nat

    constructor (disk: Disk, maxEdit: nat, maxUpload: nat)
      ensures this.disk == disk && this.maxEdit == maxEdit && this.maxUpload == maxUpload
    {
      this.disk, this.maxEdit, this.maxUpload := disk, maxEdit, maxUpload;
    }

    /** Walks the components of a path; nothing on the way may be a symbolic link or a file. */
    method SecurePath(relative: Path, allowMissingFinal: bool) returns (result: Outcome)
      requires disk.Valid()
      modifies disk`faults
      ensures result.Done? ==>
        && !InBin(relative)
        && (relative in disk.tree ==> disk.tree[relative] != Symlink)
        && (relative !in disk.tree ==>
             allowMissingFinal && relative != [] && HasParent(disk.tree, relative))
      ensures result.Failed? && result.error.notExist ==> relative !in disk.tree
      ensures disk.faults >= old(disk.faults)
      ensures disk.faults == old(disk.faults) ==> (result.Done? <==>
        && !InBin(relative) && !Blocked(disk.tree, relative)
        && (relative in disk.tree || (allowMissingFinal && relative != [] && HasParent(disk.tree, relative))))
      ensures disk.faults == old(disk.faults) && result.Failed? ==> (result.error.notExist <==> !InBin(relative) && !Blocked(disk.tree, relative))
      ensures result.Failed? ==> (result.error.notExist <==> result.error.code == FileNotFound)
      ensures result.Done? ==> !Blocked(disk.tree, relative)
    {
      hide Blocked, Reached, HasParent, FileTree.WellFormed;
      if InBin(relative) {
        return Failed(Error(PathEscape, false));
      }
      ReachedStart(disk.tree, relative);
      for i := 0 to |relative|
        invariant disk.faults >= old(disk.faults) && Reached(disk.tree, relative, i)
      {
        var current := relative[..i + 1];
        var status, node := disk.Lstat(current);
        var last := i + 1 == |relative|;
        if status == NotExist { ReachedStop(disk.tree, relative, i); }
        if status == NotExist && last && allowMissingFinal {
          return Done;
        }
        if status != Ok {
          return Failed(FileError(status));
        }
        if node == Symlink {
          BlockedOnTheWay(disk.tree, relative, i + 1);
          return Failed(Error(PathEscape, false));
        }
        if !last && node != Dir {
          BlockedOnTheWay(disk.tree, relative, i + 1);
          return Failed(Error(InvalidRequest, false));
        }
        ReachedMore(disk.tree, relative, i);
      }
      ReachedEnd(disk.tree, relative);
      return Done;
    }

    method EnsureRecycleBin() returns (result: Outcome)
      requires disk.Valid()
      modifies disk`tree, disk`faults
      ensures disk.Valid()
      ensures result.Done? ==>
        disk.tree == old(disk.tree)[BIN := Dir] && (BIN in old(disk.tree) ==> old(disk.tree)[BIN] == Dir)
      ensures result.Failed? ==> disk.tree == old(disk.tree) || (BIN !in old(disk.tree) && disk.tree == old(disk.tree)[BIN := Dir])
      ensures disk.faults >= old(disk.faults)
      ensures disk.faults == old(disk.faults) ==> (result.Done? <==> BIN in old(disk.tree) ==> old(disk.tree)[BIN] == Dir)
      ensures disk.faults == old(disk.faults) && result.Failed? ==> !result.error.notExist && disk.tree == old(disk.tree)
    {
      var status, node := disk.Lstat(BIN);
      if status == NotExist {
        var made := disk.Mkdir(BIN);
        if made != Ok && made != Exist {
          return Failed(Wrapped(WriteFailed, made));
        }
        status, node := disk.Lstat(BIN);
      }
      if status != Ok {
        return Failed(FileError(status));
      }
      if node != Dir {
        return Failed(Error(PathEscape, false));
      }
      return Done;
    }

    /** Writes the manifest and moves the target under the entry; the entry goes again on failure. */
    method FillEntry(id: Name, relative: Path, ghost before: Tree) returns (result: Outcome)
      requires disk.Valid() && Recyclable(before, id, relative)
      requires disk.tree == before[BIN := Dir][EntryPath(id) := Dir]
      modifies disk`tree, disk`faults
      ensures disk.Valid()
      ensures result.Done? ==> disk.tree == Recycled(before, id, relative)
      ensures result.Failed? ==> GrowsInBin(before, disk.tree)
      ensures disk.faults >= old(disk.faults)
      ensures disk.faults == old(disk.faults) ==> result.Done?
    {
      hide GrowsInBin, WellFormed, Recyclable, WithEntry, Moved, HasParent;
      FillingFacts(before, id, relative);
      var status := disk.WriteManifest(ManifestPath(id), FileTree.Manifest(relative, disk.tree[relative] == Dir));
      if status == Ok {
        status := disk.Rename(relative, DataPath(id));
      }
      if status != Ok {
        ghost var kept := disk.tree;
        var _ := disk.RemoveAll(EntryPath(id));
        ClearedGrows(before, kept, disk.tree, id, relative);
        return Failed(Wrapped(WriteFailed, status));
      }
      return Done;
    }

    method MoveToRecycleBin(id: Name, relative: Path) returns (result: Outcome)
      requires disk.Valid()
      modifies disk`tree, disk`faults
      ensures disk.Valid()
      ensures result.Done? ==> Recyclable(old(disk.tree), id, relative) && old(disk.tree)[relative] != Symlink
      ensures result.Done? ==> disk.tree == Recycled(old(disk.tree), id, relative)
      ensures result.Failed? ==> GrowsInBin(old(disk.tree), disk.tree)
      ensures disk.faults >= old(disk.faults)
      ensures disk.faults == old(disk.faults) ==> (result.Done? <==> CanRecycle(old(disk.tree), id, relative))
      ensures disk.faults == old(disk.faults) && result.Failed? ==> (result.error.notExist <==>
        relative !in old(disk.tree) && relative != [] && !InBin(relative) && !Blocked(old(disk.tree), relative))
      ensures disk.faults == old(disk.faults) && result.Failed? && result.error.notExist ==> disk.tree == old(disk.tree)
    {
      hide WellFormed, Blocked;
      if relative == [] || InBin(relative) {
        return Failed(Error(PathEscape, false));
      }
      FreeWay(disk.tree, relative);
      result := SecurePath(relative, false);
      if result.Failed? {
        return;
      }
      var status, node := disk.Lstat(relative);
      if status != Ok {
        return Failed(FileError(status));
      }
      if node == Symlink {
        return Failed(Error(PathEscape, false));
      }
      result := EnsureRecycleBin();
      if result.Failed? {
        return;
      }
      assert Parent(EntryPath(id)) == BIN;
      status := disk.Mkdir(EntryPath(id));
      if status != Ok {
        return Failed(Wrapped(WriteFailed, status));
      }
      result := FillEntry(id, relative, old(disk.tree));
    }

    /** atomicfile.Publish without overwrite, or atomicfile.WriteFile. */
    method RunPublish(relative: Path, publish: Publish) returns (status: Status)
      requires disk.Valid() && TempFor(publish.temp, relative)
      requires publish.WriteThrough? ==> publish.temp !in disk.tree
      modifies disk
      ensures disk.Valid()
      ensures status == Ok ==> Published(old(disk.tree), disk.tree, relative, publish, old(disk.nextNumber))
      ensures status != Ok ==> NotPublished(old(disk.tree), disk.tree, relative, publish)
      ensures disk.faults >= old(disk.faults)
      ensures disk.faults == old(disk.faults) ==> (status == Ok <==> Publishable(old(disk.tree), relative, publish))
    {
      hide Moved, Without, FileTree.WellFormed;
      match publish
      case LinkFrom(temp) =>
        status := disk.Link(temp, relative);
        if status == Ok {
          WithoutFile(disk.tree, temp);
          status := disk.Remove(temp);
        }
      case WriteThrough(temp, data) =>
        status := disk.CreateFile(temp, data);
        if status == Ok {
          status := disk.Rename(temp, relative);
        }
        if status == Ok {
          FileIntoPlace(old(disk.tree), temp, relative, File(old(disk.nextNumber), data));
        } else {
          ghost var left := disk.tree;
          var removed := disk.Remove(temp);
          if removed == Ok { WithoutFile(left, temp); }
        }
    }

    /** Finds an entry with a valid manifest and content of the recorded kind. */
    method LocateRecycleEntry(id: Name) returns (result: Outcome, original: Path)
      requires disk.Valid()
      modifies disk`faults
      ensures result.Done? ==> Located(disk.tree, id) && original == disk.tree[ManifestPath(id)].originalPath
      ensures disk.faults >= old(disk.faults)
      ensures disk.faults == old(disk.faults) ==> (result.Done? <==> ValidId(id) && Located(disk.tree, id))
    {
      original := [];
      if !ValidId(id) {
        return Failed(Error(InvalidRequest, false)), original;
      }
      if DataPath(id) in disk.tree { AncestorsExist(disk.tree, DataPath(id), EntryPath(id)); }
      var status, node := disk.Lstat(EntryPath(id));
      if status == NotExist {
        return Failed(Error(FileNotFound, false)), original;
      }
      if status != Ok {
        return Failed(FileError(status)), original;
      }
      if node != Dir {
        return Failed(Error(InvalidRequest, false)), original;
      }
      var manifest;
      status, manifest := disk.Lstat(ManifestPath(id));
      if status == NotExist {
        return Failed(Error(FileNotFound, false)), original;
      }
      if status != Ok || !manifest.Manifest? || manifest.originalPath == [] || InBin(manifest.originalPath) {
        return Failed(Error(ReadFailed, false)), original;
      }
      status, node := disk.Lstat(DataPath(id));
      if status != Ok {
        return Failed(Wrapped(ReadFailed, status)), original;
      }
      if (if manifest.isDirectory then node != Dir else !node.File?) {
        return Failed(Error(InvalidRequest, false)), original;
      }
      return Done, manifest.originalPath;
    }

    /** Moves the data of an entry back to a free place and drops the entry. Shared by RecycleRestore
        and restoreRecycleEntry, whose steps are the same. */
    method RestoreEntry(id: Name) returns (result: Outcome)
      requires disk.Valid() && BinTidy(disk.tree)
      modifies disk`tree, disk`faults
      ensures disk.Valid() && BinTidy(disk.tree)
      ensures Files(old(disk.tree)) <= Files(disk.tree) && KeepsVisible(old(disk.tree), disk.tree)
      ensures NewBelowOriginal(old(disk.tree), disk.tree, id)
      ensures result.Done? ==> RestoredFrom(old(disk.tree)[BIN := Dir], disk.tree, id)
      ensures disk.faults >= old(disk.faults)
      ensures disk.faults == old(disk.faults) ==> (result.Done? <==>
        (BIN in old(disk.tree) ==> old(disk.tree)[BIN] == Dir) && ValidId(id) && Restorable(old(disk.tree)[BIN := Dir], id))
    {
      result := EnsureRecycleBin();
      ghost var made := disk.tree;
      if result.Done? {
        var original;
        result, original := LocateFreePlace(id);
        if result.Done? {
          // os.MkdirAll of the parent comes here and finds it there: SecurePath walked it
          result := MoveBackAndDrop(id, original);
        }
      }
      RestoreAfterMaking(old(disk.tree), made, disk.tree, id);
    }

    /** The entry's original path, if nothing is there now. */
    method LocateFreePlace(id: Name) returns (result: Outcome, original: Path)
      requires disk.Valid()
      modifies disk`faults
      ensures result.Done? ==> Restorable(disk.tree, id) && disk.tree[ManifestPath(id)].originalPath == original
      ensures disk.faults >= old(disk.faults)
      ensures disk.faults == old(disk.faults) ==> (result.Done? <==> ValidId(id) && Restorable(disk.tree, id))
    {
      result, original := LocateRecycleEntry(id);
      if result.Failed? {
        return;
      }
      FreeWay(disk.tree, original);
      result := SecurePath(original, true);
      if result.Failed? {
        return;
      }
      var status, node := disk.Lstat(original);
      if status == Ok {
        return Failed(Error(FileExists, false)), original;
      }
      if status != NotExist {
        return Failed(FileError(status)), original;
      }
    }

    method MoveBackAndDrop(id: Name, original: Path) returns (result: Outcome)
      requires disk.Valid() && BinTidy(disk.tree)
      requires Restorable(disk.tree, id) && disk.tree[ManifestPath(id)].originalPath == original
      modifies disk`tree, disk`faults
      ensures disk.Valid() && BinTidy(disk.tree)
      ensures Files(old(disk.tree)) <= Files(disk.tree) && KeepsVisible(old(disk.tree), disk.tree)
      ensures NewBelowOriginal(old(disk.tree), disk.tree, id)
      ensures result.Done? ==> disk.tree == Restored(old(disk.tree), id, original)
      ensures disk.faults >= old(disk.faults)
      ensures disk.faults == old(disk.faults) ==> result.Done?
    {
      BelowBinIsInBin(DataPath(id), original);
      var status := disk.Rename(DataPath(id), original);
      if status != Ok {
        return Failed(Wrapped(WriteFailed, status));
      }
      ghost var moved := disk.tree;
      status := disk.RemoveAll(EntryPath(id));
      MoveBackFacts(old(disk.tree), moved, disk.tree, id, original);
      if status != Ok {
        return Failed(Wrapped(WriteFailed, status));
      }
      return Done;
    }

    /** Brings a recycled target back after its publication failed. */
    method UndoRecycle(id: Name, relative: Path, publish: Publish, ghost before: Tree) returns (restored: bool)
      requires disk.Valid() && BinTidy(disk.tree) && TempFor(publish.temp, relative) && BinTidy(before)
      requires Recyclable(before, id, relative) && NotPublished(Recycled(before, id, relative), disk.tree, relative, publish)
      requires ValidId(id)
      modifies disk
      ensures disk.Valid() && BinTidy(disk.tree)
      ensures Files(old(disk.tree)) <= Files(disk.tree) && KeepsVisible(old(disk.tree), disk.tree)
      ensures publish.temp in disk.tree ==> publish.temp in old(disk.tree)
      ensures restored ==> Unchanged(before, disk.tree, publish.temp)
      ensures disk.faults >= old(disk.faults)
      ensures disk.faults == old(disk.faults) && relative !in old(disk.tree) && Ordinary(before[relative]) ==> restored
    {
      ghost var failed := disk.tree;
      RecycledIsTidy(before, id, relative);
      FailureKeepsBin(Recycled(before, id, relative), failed, relative, publish, ManifestPath(id));
      if relative !in failed && Ordinary(before[relative]) { CanUndo(before, failed, id, relative, publish); }
      var undone := RestoreEntry(id);
      assert !(relative <= publish.temp) by { assert relative <= publish.temp ==> relative == publish.temp; }
      restored := undone.Done?;
      if restored {
        UndoneIsUnchanged(before, Recycled(before, id, relative), failed, disk.tree, id, relative, publish);
      }
    }

    /** Runs the publication on the prepared tree and brings a recycled target back if it fails. */
    method PublishPrepared(id: Name, relative: Path, publish: Publish, recycled: bool, ghost before: Tree)
      returns (result: Outcome, restored: bool)
      requires disk.Valid() && BinTidy(disk.tree) && TempFor(publish.temp, relative)
      requires publish.WriteThrough? ==> publish.temp !in disk.tree
      requires Prepared(before, disk.tree, id, relative, recycled) && BinTidy(before) && ValidId(id)
      modifies disk
      ensures disk.Valid() && BinTidy(disk.tree)
      ensures result.Done? ==> Published(old(disk.tree), disk.tree, relative, publish, old(disk.nextNumber))
      ensures result.Failed? || relative !in old(disk.tree) ==> Files(old(disk.tree)) <= Files(disk.tree)
      ensures result.Failed? && restored ==> recycled && Unchanged(before, disk.tree, publish.temp)
      ensures result.Failed? && publish.LinkFrom? ==> KeepsVisible(old(disk.tree), disk.tree)
      ensures publish.LinkFrom? && publish.temp in disk.tree ==> publish.temp in old(disk.tree)
      ensures disk.faults >= old(disk.faults)
      ensures disk.faults == old(disk.faults) ==> (result.Done? <==> Publishable(old(disk.tree), relative, publish))
      ensures result.Failed? && recycled && Ordinary(before[relative]) ==>
        || disk.faults > old(disk.faults) + (if Publishable(old(disk.tree), relative, publish) then 1 else 0)
        || Undone(before, disk.tree, relative, publish)
    {
      hide Files, WellFormed, KeepsVisible, Publishable, BinTidy, Unchanged, Undone, Recycled;
      restored := false;
      ghost var ready, number := disk.tree, disk.nextNumber;
      var status := RunPublish(relative, publish);
      PublishingKeepsTidy(ready, disk.tree, relative, publish, number);
      if status == Ok {
        if relative !in ready { PublishKeepsFiles(ready, disk.tree, relative, publish, number); }
        return Done, false;
      }
      ghost var failed := disk.tree;
      FailureKeepsFiles(ready, failed, relative, publish);
      result := Failed(Wrapped(if status == Exist then FileExists else WriteFailed, status));
      if recycled {
        restored := UndoRecycle(id, relative, publish, before);
        KeepsVisibleTwice(ready, failed, disk.tree);
        PreparedFacts(before, ready, id, relative, recycled);
        if restored || relative in failed { LeftUndone(before, ready, failed, disk.tree, relative, publish); }
      }
    }

    /** Moves the target to the bin, publishes, and brings the target back if that fails. Where the
        move reports that something does not exist, it publishes all the same. */
    method PublishWithRecycle(id: Name, relative: Path, publish: Publish)
      returns (result: Outcome, recycled: bool, restored: bool, ghost ready: Tree)
      requires disk.Valid() && BinTidy(disk.tree) && TempFor(publish.temp, relative) && ValidId(id)
      requires publish.WriteThrough? ==> publish.temp !in disk.tree
      modifies disk
      ensures disk.Valid() && BinTidy(disk.tree)
      ensures Prepared(old(disk.tree), ready, id, relative, recycled)
      ensures result.Done? ==> Published(ready, disk.tree, relative, publish, old(disk.nextNumber))
      ensures recycled || result.Failed? || relative !in old(disk.tree) || publish.LinkFrom? ==>
        Files(old(disk.tree)) <= Files(disk.tree)
      ensures result.Failed? && restored ==> recycled && Unchanged(old(disk.tree), disk.tree, publish.temp)
      ensures result.Failed? && publish.LinkFrom? ==> KeepsVisible(ready, disk.tree)
      ensures publish.LinkFrom? && publish.temp in disk.tree ==> publish.temp in old(disk.tree)
      ensures disk.faults >= old(disk.faults)
      ensures disk.faults == old(disk.faults) ==> (result.Done? <==> CanPublish(old(disk.tree), id, relative, publish))
      ensures disk.faults == old(disk.faults) && result.Done? && relative in old(disk.tree) ==> recycled
      ensures result.Failed? && recycled && Ordinary(old(disk.tree)[relative]) ==>
        || disk.faults > old(disk.faults) + (if CanPublish(old(disk.tree), id, relative, publish) then 1 else 0)
        || Undone(old(disk.tree), disk.tree, relative, publish)
    {
      hide Files, BinTidy, Undone, Unchanged;
      restored := false;
      ghost var before := disk.tree;
      FreeWay(before, relative);
      result := MoveToRecycleBin(id, relative);
      recycled := result.Done?;
      ready := disk.tree;
      PreparedFacts(before, ready, id, relative, recycled);
      if result.Failed? && !result.error.notExist {
        return;
      }
      PreparedKeepsTempFree(before, ready, id, relative, recycled, publish.temp);
      if recycled { RecycledIsPublishable(before, id, relative, publish); }
      result, restored := PublishPrepared(id, relative, publish, recycled, before);
    }

    /** Replaces a file the caller has read. */
    method Save(id: Name, temp: Path, relative: Path, raw: Option<Bytes>, expected: Option<Bytes>)
      returns (result: Outcome, recycled: bool, restored: bool)
      requires disk.Valid() && BinTidy(disk.tree) && ValidId(id)
      requires FreshTemp(disk.tree, temp, relative)
      modifies disk
      ensures disk.Valid() && BinTidy(disk.tree)
      ensures result.Done? ==> SavedOver(old(disk.tree), disk.tree, id, relative, raw, expected, recycled)
      ensures result.Failed? || recycled ==> Files(old(disk.tree)) <= Files(disk.tree)
      ensures result.Done? && OneName(old(disk.tree), relative) && !recycled ==> !(Files(old(disk.tree)) <= Files(disk.tree))
      ensures result.Failed? && restored ==> recycled && Unchanged(old(disk.tree), disk.tree, temp)
      ensures Files(old(disk.tree)) <= Files(disk.tree) + FileAt(old(disk.tree), relative)
      ensures disk.faults >= old(disk.faults)
      ensures disk.faults == old(disk.faults) ==> (result.Done? <==>
        MaySave(old(disk.tree), relative, raw, expected, maxEdit) && CanRecycle(old(disk.tree), id, relative))
      ensures disk.faults == old(disk.faults) && result.Done? ==> recycled
      ensures result.Failed? && recycled && disk.faults <= old(disk.faults) + 1 ==> Unchanged(old(disk.tree), disk.tree, temp)
    {
      recycled, restored := false, false;
      if relative == [] {
        return Failed(Error(InvalidRequest, false)), false, false;
      }
      FreeWay(disk.tree, relative);
      result := SecurePath(relative, false);
      if result.Failed? {
        return;
      }
      var status, node := disk.Lstat(relative);
      if status != Ok {
        return Failed(FileError(status)), false, false;
      }
      if !node.File? {
        return Failed(Error(InvalidRequest, false)), false, false;
      }
      if expected.None? || node.data != expected.value {
        return Failed(Error(FileChanged, false)), false, false;
      }
      if raw.None? {
        return Failed(Error(InvalidRequest, false)), false, false;
      }
      if |raw.value| > maxEdit {
        return Failed(Error(FileTooLarge, false)), false, false;
      }
      ghost var ready;
      result, recycled, restored, ready := PublishWithRecycle(id, relative, WriteThrough(temp, raw.value));
      if result.Done? {
        SavedFacts(old(disk.tree), ready, disk.tree, id, relative, WriteThrough(temp, raw.value), old(disk.nextNumber), recycled);
      }
    }

    /** Makes the missing directories above an upload target. */
    method EnsureUploadParent(relative: Path) returns (result: Outcome)
      requires disk.Valid() && relative != [] && !InBin(relative)
      modifies disk`tree, disk`faults
      ensures disk.Valid() && OnlyNewDirs(old(disk.tree), disk.tree, |relative|)
      ensures disk.faults >= old(disk.faults)
      ensures disk.faults == old(disk.faults) && relative !in old(disk.tree) ==> (result.Done? <==> !Blocked(old(disk.tree), relative))
      ensures disk.faults == old(disk.faults) && result.Done? && relative !in old(disk.tree) ==>
        relative !in disk.tree && HasParent(disk.tree, relative)
    {
      hide FileTree.WellFormed, OnlyNewDirs, Blocked, MadeUpTo;
      ghost var before := disk.tree;
      NewDir(before, before, relative, []);
      MadeNothing(before, relative);
      for i := 0 to |relative| - 1
        invariant disk.faults >= old(disk.faults) && disk.Valid() && OnlyNewDirs(old(disk.tree), disk.tree, |relative|)
        invariant disk.faults == old(disk.faults) ==> MadeUpTo(disk.tree, relative, i)
      {
        var current := relative[..i + 1];
        if disk.faults == old(disk.faults) { MadeParent(disk.tree, relative, i); }
        var status, node := disk.Lstat(current);
        if status == Ok {
          if node != Dir {
            NewIsDir(before, disk.tree, |relative|, current);
            BlockedOnTheWay(before, relative, i + 1);
            return Failed(Error(PathEscape, false));
          }
          if disk.faults == old(disk.faults) { MadeMore(disk.tree, disk.tree, relative, i); }
        } else if status == NotExist {
          NewDir(before, disk.tree, relative, current);
          ghost var t := disk.tree;
          status := disk.Mkdir(current);
          if status != Ok && status != Exist {
            return Failed(FileError(status));
          }
          if disk.faults == old(disk.faults) { MadeMore(t, disk.tree, relative, i); }
        } else {
          return Failed(FileError(status));
        }
      }
      if disk.faults == old(disk.faults) { MadeAll(before, disk.tree, relative); }
      return Done;
    }

    /** The path of an upload target, its directory made if need be. */
    method UploadTarget(relative: Path) returns (result: Outcome)
      requires disk.Valid()
      modifies disk`tree, disk`faults
      ensures disk.Valid() && OnlyNewDirs(old(disk.tree), disk.tree, |relative|)
      ensures result.Done? ==> relative != [] && !InBin(relative)
      ensures result.Done? && relative in disk.tree ==> relative in old(disk.tree)
      ensures disk.faults >= old(disk.faults)
      ensures disk.faults == old(disk.faults) ==> (result.Done? <==> relative != [] && !InBin(relative) && !Blocked(old(disk.tree), relative))
      ensures result.Done? ==> HasParent(disk.tree, relative) && (relative in old(disk.tree) ==> relative in disk.tree)
      ensures result.Done? ==> !Blocked(disk.tree, relative)
    {
      if relative == [] {
        return Failed(Error(InvalidRequest, false));
      }
      FreeWay(disk.tree, relative);
      result := SecurePath(relative, true);
      if result.Done? { FreeWay(disk.tree, relative); }
      if result.Failed? && result.error.code == FileNotFound && !InBin(relative) {
        result := EnsureUploadParent(relative);
        if result.Done? {
          FreeWay(disk.tree, relative);
          result := SecurePath(relative, true);
        }
      }
    }

    /** Whether the target may be replaced. */
    method CheckUploadTarget(relative: Path, overwrite: bool, expected: Option<Bytes>) returns (result: Outcome)
      requires disk.Valid()
      modifies disk`faults
      ensures result.Done? ==> MayReplace(disk.tree, relative, overwrite, expected)
      ensures disk.faults >= old(disk.faults)
      ensures disk.faults == old(disk.faults) ==> (result.Done? <==> MayReplace(disk.tree, relative, overwrite, expected))
    {
      var status, node := disk.Lstat(relative);
      if status == NotExist {
        return Done;
      }
      if status != Ok {
        return Failed(FileError(status));
      }
      if !node.File? {
        return Failed(Error(InvalidRequest, false));
      }
      if !overwrite {
        return Failed(Error(FileExists, false));
      }
      if expected.Some? && node.data != expected.value {
        return Failed(Error(FileChanged, false));
      }
      return Done;
    }

    /** Writes the source to a temporary file and checks its size and digest. */
    method ReceiveUpload(temp: Path, source: Bytes, expectedSize: int, expectedData: Option<Bytes>) returns (result: Outcome)
      requires disk.Valid() && temp != [] && temp !in disk.tree
      modifies disk
      ensures disk.Valid()
      ensures result.Done? ==>
        && disk.tree == old(disk.tree)[temp := File(old(disk.nextNumber), source)]
        && |source| == expectedSize <= maxUpload && (expectedData.Some? ==> source == expectedData.value)
      ensures result.Failed? ==> disk.tree == old(disk.tree) || PartlyCreated(old(disk.tree), disk.tree, temp, old(disk.nextNumber))
      ensures disk.faults >= old(disk.faults)
      ensures disk.faults == old(disk.faults) ==> (result.Done? <==>
        HasParent(old(disk.tree), temp) && |source| == expectedSize <= maxUpload && (expectedData.Some? ==> source == expectedData.value))
    {
      var written := if |source| <= maxUpload + 1 then source else source[..maxUpload + 1];
      var status := disk.CreateFile(temp, written);
      if status != Ok {
        return Failed(Wrapped(WriteFailed, status));
      }
      if |written| > maxUpload || |written| != expectedSize {
        return Failed(Error(SizeMismatch, false));
      }
      if expectedData.Some? && written != expectedData.value {
        return Failed(Error(HashMismatch, false));
      }
      return Done;
    }

    /** Publishes a finished temporary file under its target. */
    method PublishUpload(id: Name, temp: Path, relative: Path) returns (result: Outcome)
      requires disk.Valid() && BinTidy(disk.tree) && TempFor(temp, relative) && ValidId(id)
      modifies disk
      ensures disk.Valid() && BinTidy(disk.tree)
      ensures Files(old(disk.tree)) <= Files(disk.tree)
      ensures result.Done? ==>
        && temp in old(disk.tree) && old(disk.tree)[temp].File?
        && relative in disk.tree && disk.tree[relative] == old(disk.tree)[temp] && temp !in disk.tree
      ensures result.Failed? && temp in old(disk.tree) ==> temp in disk.tree && disk.tree[temp] == old(disk.tree)[temp]
      ensures temp !in old(disk.tree) ==> temp !in disk.tree
      ensures disk.faults >= old(disk.faults)
      ensures disk.faults == old(disk.faults) ==> (result.Done? <==> CanPublish(old(disk.tree), id, relative, LinkFrom(temp)))
    {
      hide Files, WellFormed, BinTidy, CanPublish, Prepared, Unchanged, Undone, Moved;
      var recycled, restored;
      ghost var ready;
      result, recycled, restored, ready := PublishWithRecycle(id, relative, LinkFrom(temp));
      PreparedKeepsTempFree(old(disk.tree), ready, id, relative, recycled, temp);
      if temp in old(disk.tree) { PreparedKeepsTemp(old(disk.tree), ready, id, relative, recycled, temp); }
    }

    method Upload(id: Name, temp: Path, relative: Path, source: Bytes, expectedSize: int, expectedData: Option<Bytes>,
                  overwrite: bool, expected: Option<Bytes>)
      returns (result: Outcome)
      requires disk.Valid() && BinTidy(disk.tree) && ValidId(id) && FreshTemp(disk.tree, temp, relative)
      modifies disk
      ensures disk.Valid() && BinTidy(disk.tree)
      ensures Files(old(disk.tree)) <= Files(disk.tree)
      ensures result.Done? ==>
        && relative in disk.tree && disk.tree[relative] == File(old(disk.nextNumber), source)
        && |source| == expectedSize <= maxUpload && (expectedData.Some? ==> source == expectedData.value)
        && MayReplace(old(disk.tree), relative, overwrite, expected)
      ensures disk.faults >= old(disk.faults)
      ensures disk.faults == old(disk.faults) ==> (result.Done? <==>
        && MayUpload(old(disk.tree), relative, source, expectedSize, expectedData, overwrite, expected, maxUpload)
        && (relative in old(disk.tree) ==> CanRecycle(old(disk.tree), id, relative)))
    {
      if expectedSize < 0 || expectedSize > maxUpload {
        return Failed(Error(FileTooLarge, false));
      }
      ghost var before := disk.tree;
      result := UploadTarget(relative);
      if result.Failed? {
        return;
      }
      RecyclableUnder(before, disk.tree, id, relative);
      result := CheckUploadTarget(relative, overwrite, expected);
      if result.Failed? {
        return;
      }
      result := ReceiveAndPublish(id, temp, relative, source, expectedSize, expectedData);
    }

    method ReceiveAndPublish(id: Name, temp: Path, relative: Path, source: Bytes, expectedSize: int, expectedData: Option<Bytes>)
      returns (result: Outcome)
      requires disk.Valid() && BinTidy(disk.tree) && ValidId(id) && TempFor(temp, relative) && temp !in disk.tree
      modifies disk
      ensures disk.Valid() && BinTidy(disk.tree)
      ensures Files(old(disk.tree)) <= Files(disk.tree)
      ensures result.Done? ==>
        && relative in disk.tree && disk.tree[relative] == File(old(disk.nextNumber), source)
        && |source| == expectedSize <= maxUpload && (expectedData.Some? ==> source == expectedData.value)
      ensures disk.faults >= old(disk.faults)
      ensures disk.faults == old(disk.faults) ==> (result.Done? <==>
        && HasParent(old(disk.tree), relative) && (relative in old(disk.tree) ==> CanRecycle(old(disk.tree), id, relative))
        && |source| == expectedSize <= maxUpload && (expectedData.Some? ==> source == expectedData.value))
    {
      ghost var before, number := disk.tree, disk.nextNumber;
      result := ReceiveUpload(temp, source, expectedSize, expectedData);
      AddKeepsFiles(before, temp, if temp in disk.tree then disk.tree[temp] else Dir);
      if result.Done? {
        RecyclableBeside(before, id, relative, temp, disk.tree[temp]);
        result := PublishUpload(id, temp, relative);
      }
      ghost var left := disk.tree;
      var removed := disk.Remove(temp);
      if removed == Ok {
        WithoutFile(left, temp);
        RemovingTempKeepsFiles(before, left, temp, number);
      }
    }

    /** One pass of the loop of Delete. */
    method DeleteOne(id: Name, relative: Path, recursive: bool) returns (result: Outcome)
      requires disk.Valid() && BinTidy(disk.tree)
      modifies disk`tree, disk`faults
      ensures disk.Valid() && BinTidy(disk.tree)
      ensures Files(old(disk.tree)) <= Files(disk.tree)
      ensures result.Done? ==>
        && Recyclable(old(disk.tree), id, relative) && disk.tree == Recycled(old(disk.tree), id, relative)
        && (old(disk.tree)[relative] == Dir ==> recursive)
      ensures result.Failed? ==> GrowsInBin(old(disk.tree), disk.tree)
      ensures disk.faults >= old(disk.faults)
      ensures disk.faults == old(disk.faults) ==> (result.Done? <==> MayDelete(old(disk.tree), id, relative, recursive))
      ensures disk.faults == old(disk.faults) && result.Failed? ==> !MayDelete(disk.tree, id, relative, recursive)
    {
      if relative == [] || InBin(relative) {
        return Failed(Error(InvalidRequest, false));
      }
      FreeWay(disk.tree, relative);
      result := SecurePath(relative, false);
      if result.Failed? {
        return;
      }
      var status, node := disk.Lstat(relative);
      if status != Ok {
        return Failed(FileError(status));
      }
      if node == Dir && !recursive {
        return Failed(Error(RecursiveRequired, false));
      }
      result := MoveToRecycleBin(id, relative);
      PreparedFacts(old(disk.tree), disk.tree, id, relative, result.Done?);
    }

    /** Moves paths to the bin one after another; ids are the random names drawn for the entries.
        A failure leaves the paths before it in the bin and the rest in place. */
    method Delete(ids: seq<Name>, paths: seq<Path>, recursive: bool) returns (result: Outcome, deleted: nat)
      requires disk.Valid() && BinTidy(disk.tree) && |ids| == |paths|
      modifies disk`tree, disk`faults
      ensures disk.Valid() && BinTidy(disk.tree)
      ensures Files(old(disk.tree)) <= Files(disk.tree)
      ensures deleted <= |paths| && DeletedFirst(old(disk.tree), disk.tree, paths, deleted)
      ensures result.Done? ==> deleted == |paths| && 1 <= |paths| <= 100
      ensures disk.faults >= old(disk.faults)
      ensures disk.faults == old(disk.faults) && result.Failed? ==>
        |paths| == 0 || |paths| > 100 || (deleted < |paths| && !MayDelete(disk.tree, ids[deleted], paths[deleted], recursive))
    {
      deleted := 0;
      if |paths| == 0 || |paths| > 100 {
        return Failed(Error(InvalidRequest, false)), 0;
      }
      while deleted < |paths|
        invariant deleted <= |paths| && disk.Valid() && BinTidy(disk.tree) && disk.faults >= old(disk.faults)
        invariant Files(old(disk.tree)) <= Files(disk.tree)
        invariant DeletedFirst(old(disk.tree), disk.tree, paths, deleted)
      {
        ghost var mid := disk.tree;
        result := DeleteOne(ids[deleted], paths[deleted], recursive);
        if result.Failed? {
          return;
        }
        DeletedOneMore(old(disk.tree), mid, disk.tree, ids[deleted], paths, deleted);
        deleted := deleted + 1;
      }
      result := Done;
    }

    /** Removes entries for good, up to the first that fails; only what lies in them is lost. */
    method RecycleDelete(ids: seq<Name>) returns (result: Outcome, purged: nat, ghost roots: set<Path>)
      requires disk.Valid() && BinTidy(disk.tree)
      modifies disk`tree, disk`faults
      ensures disk.Valid() && BinTidy(disk.tree)
      ensures Files(old(disk.tree)) <= Files(disk.tree) + FilesBelow(old(disk.tree), roots) && KeepsVisible(old(disk.tree), disk.tree)
      ensures RootsAmong(roots, ids, |ids|)
      ensures purged <= |ids|
      ensures result.Done? || disk.faults == old(disk.faults) ==>
        (purged == 0 && disk.tree == old(disk.tree)) || PurgedFirst(old(disk.tree)[BIN := Dir], disk.tree, ids, purged)
      ensures result.Done? ==> purged == |ids| && 1 <= |ids| <= 100
      ensures result.Done? ==> PurgedFirst(old(disk.tree)[BIN := Dir], disk.tree, ids, purged)
      ensures disk.faults >= old(disk.faults)
      ensures disk.faults == old(disk.faults) && result.Failed? ==>
        || |ids| == 0 || |ids| > 100 || (BIN in disk.tree && disk.tree[BIN] != Dir)
        || (purged < |ids| && !(ValidId(ids[purged]) && Located(disk.tree, ids[purged])))
    {
      purged, roots := 0, {};
      if |ids| == 0 || |ids| > 100 {
        return Failed(Error(InvalidRequest, false)), purged, roots;
      }
      result := EnsureRecycleBin();
      AddKeepsFiles(old(disk.tree), BIN, Dir);
      if result.Failed? {
        return;
      }
      result, purged, roots := PurgeEntries(ids);
      PurgeFacts(old(disk.tree), disk.tree, roots);
    }

    method PurgeEntries(ids: seq<Name>) returns (result: Outcome, purged: nat, ghost roots: set<Path>)
      requires disk.Valid()
      modifies disk`tree, disk`faults
      ensures disk.Valid() && PurgedOnly(old(disk.tree), disk.tree, roots)
      ensures RootsAmong(roots, ids, |ids|) && purged <= |ids|
      ensures result.Done? || disk.faults == old(disk.faults) ==> PurgedFirst(old(disk.tree), disk.tree, ids, purged)
      ensures result.Done? ==> purged == |ids|
      ensures disk.faults >= old(disk.faults)
      ensures disk.faults == old(disk.faults) && result.Failed? ==>
        purged < |ids| && !(ValidId(ids[purged]) && Located(disk.tree, ids[purged]))
    {
      hide Located, PurgedOnly, PurgedFirst, Without, RootsAmong;
      purged, roots := 0, {};
      NothingPurged(disk.tree, ids);
      while purged < |ids|
        invariant purged <= |ids| && disk.Valid() && disk.faults >= old(disk.faults)
        invariant PurgedOnly(old(disk.tree), disk.tree, roots) && PurgedFirst(old(disk.tree), disk.tree, ids, purged)
        invariant RootsAmong(roots, ids, purged)
      {
        var original;
        RootsStay(roots, ids, purged);
        result, original := LocateRecycleEntry(ids[purged]);
        if result.Failed? {
          return;
        }
        ghost var mid := disk.tree;
        var status := disk.RemoveAll(EntryPath(ids[purged]));
        PurgeMore(old(disk.tree), mid, disk.tree, roots, EntryPath(ids[purged]));
        RootsGrow(roots, ids, purged);
        roots := roots + {EntryPath(ids[purged])};
        RootsStay(roots, ids, purged + 1);
        if status != Ok {
          return Failed(Wrapped(WriteFailed, status)), purged, roots;
        }
        PurgedNext(old(disk.tree), mid, disk.tree, ids, purged);
        purged := purged + 1;
      }
      result := Done;
    }

    method RecycleClear() returns (result: Outcome)
      requires disk.Valid() && BinTidy(disk.tree)
      modifies disk`tree, disk`faults
      ensures disk.Valid() && BinTidy(disk.tree)
      ensures Files(old(disk.tree)) <= Files(disk.tree) + FilesBelow(old(disk.tree), {BIN}) && KeepsVisible(old(disk.tree), disk.tree)
      ensures result.Done? ==> BIN in disk.tree && forall p :: p in disk.tree && InBin(p) ==> p == BIN
      ensures disk.faults >= old(disk.faults)
      ensures disk.faults == old(disk.faults) ==> (result.Done? <==> BIN in old(disk.tree) ==> old(disk.tree)[BIN] == Dir)
    {
      result := EnsureRecycleBin();
      AddKeepsFiles(old(disk.tree), BIN, Dir);
      if result.Failed? {
        return;
      }
      result := ClearBin();
      PurgeFacts(old(disk.tree), disk.tree, {BIN});
    }

    method ClearBin() returns (result: Outcome)
      requires disk.Valid() && BIN in disk.tree
      modifies disk`tree, disk`faults
      ensures disk.Valid() && PurgedOnly(old(disk.tree), disk.tree, {BIN})
      ensures result.Done? ==> BIN in disk.tree && forall p :: p in disk.tree && InBin(p) ==> p == BIN
      ensures disk.faults >= old(disk.faults)
      ensures disk.faults == old(disk.faults) ==> result.Done?
    {
      var entries := set p | p in disk.tree && InBin(p) && |p| == 2;
      ghost var before := disk.tree;
      while entries != {}
        invariant disk.faults >= old(disk.faults)
        invariant disk.Valid() && BIN in disk.tree && PurgedOnly(before, disk.tree, {BIN})
        invariant forall p :: p in entries ==> InBin(p) && |p| == 2
        invariant forall p :: p in disk.tree && InBin(p) && |p| == 2 ==> p in entries
      {
        var entry :| entry in entries;
        ghost var mid := disk.tree;
        var status := disk.RemoveAll(entry);
        forall p | p in before && !BelowRoots({BIN}, p) ensures !(entry <= p) {
          assert entry <= p ==> BIN <= p;
        }
        if status != Ok {
          return Failed(Wrapped(WriteFailed, status));
        }
        entries := entries - {entry};
      }
      OnlyBinIsLeft(disk.tree);
      result := Done;
    }

    /** One request; overwrote tells that Save wrote over a file the bin did not get. */
    method Serve(request: Request, names: Names) returns (result: Outcome, overwrote: bool)
      requires disk.Valid() && BinTidy(disk.tree) && Drawn(names, disk.tree, request)
      modifies disk
      ensures disk.Valid() && BinTidy(disk.tree)
      ensures Files(old(disk.tree)) <= Files(disk.tree) + Stakes(old(disk.tree), request)
      ensures request.SaveRequest? && !overwrote ==> Files(old(disk.tree)) <= Files(disk.tree)
      ensures overwrote ==> request.SaveRequest?
      ensures overwrote && OneName(old(disk.tree), request.relative) ==> !(Files(old(disk.tree)) <= Files(disk.tree))
      ensures disk.faults >= old(disk.faults)
      ensures overwrote ==> disk.faults > old(disk.faults)
      ensures result.Done? ==> Did(old(disk.tree), disk.tree, request, names, overwrote)
      ensures disk.faults == old(disk.faults) && result.Failed? ==>
        Refusable(old(disk.tree), disk.tree, request, names, Limits(maxEdit, maxUpload))
    {
      hide Files, FilesBelow, FileAt, MaySave, MayUpload, MayDelete, CanRecycle, SavedOver, RestoredFrom, Restorable, Located, BinTidy;
      hide PurgedFirst, DeletedFirst, EntryRoots, RootsAmong, KeepsVisible, WellFormed;
      overwrote := false;
      match request
      case SaveRequest(relative, raw, expected) =>
        var recycled, restored;
        result, recycled, restored := Save(names.id, names.temp, relative, raw, expected);
        overwrote := result.Done? && !recycled;
      case UploadRequest(relative, source, expectedSize, expectedData, overwrite, expected) =>
        result := Upload(names.id, names.temp, relative, source, expectedSize, expectedData, overwrite, expected);
      case DeleteRequest(paths, recursive) =>
        var deleted;
        result, deleted := Delete(names.ids, paths, recursive);
      case RestoreRequest(id) =>
        result := RestoreEntry(id);
      case PurgeRequest(ids) =>
        ghost var t, roots := disk.tree, {};
        var purged;
        result, purged, roots := RecycleDelete(ids);
        FewerRoots(t, roots, ids);
      case ClearRequest =>
        result := RecycleClear();
    }
  }
}
