/** Publishing an extracted archive: a walk over the staged tree that merges it into the workspace
    under one of three conflict policies. daemon/internal/files/extract.go:262-353, 462-471 */
module Extract {
  import opened FileTree
  import opened Numerals
  import opened Recycle

  datatype ConflictPolicy = Skip | Rename | Overwrite

  // ----- free names

  /** Where filepath.Ext of a name begins: at its last dot, or at its end. */
  function ExtStart(name: Name): (i: nat)
    ensures i <= |name|
    ensures i < |name| ==> name[i] == '.'
    ensures forall j :: i < j < |name| ==> name[j] != '.'
  {
    if name == [] then 0
    else if name[|name| - 1] == '.' then |name| - 1
    else var i := ExtStart(name[..|name| - 1]); if i == |name| - 1 then |name| else i
  }

  /** "base (index)ext" */
  function Candidate(name: Name, index: nat): Name {
    name[..ExtStart(name)] + " (" + Decimal(index) + ")" + name[ExtStart(name)..]
  }

  lemma MiddlesAreEqual(front: string, a: string, b: string, back: string)
    requires front + a + back == front + b + back
    ensures a == b
  {
    assert |a| == |b|;
    assert a == (front + a + back)[|front|..|front| + |a|];
    assert b == (front + b + back)[|front|..|front| + |b|];
  }

  lemma CandidateIsInjective(name: Name, i: nat, j: nat)
    requires Candidate(name, i) == Candidate(name, j)
    ensures i == j
  {
    var front, back := name[..ExtStart(name)] + " (", ")" + name[ExtStart(name)..];
    assert Candidate(name, i) == front + Decimal(i) + back && Candidate(name, j) == front + Decimal(j) + back;
    MiddlesAreEqual(front, Decimal(i), Decimal(j), back);
    DecimalIsInjective(i, j);
  }

  lemma NumeralHasNoDot(index: nat)
    ensures forall i :: 0 <= i < |Decimal(index)| ==> Decimal(index)[i] != '.'
  {
    ParseUndoesDecimal(index);
  }

  lemma ExtStartIs(name: Name, i: nat)
    requires i <= |name| && (i < |name| ==> name[i] == '.') && forall j :: i < j < |name| ==> name[j] != '.'
    requires i == |name| ==> forall j :: 0 <= j < |name| ==> name[j] != '.'
    ensures ExtStart(name) == i
  {
    if ExtStart(name) < i { NoDotBefore(name); }
  }

  /** A name with a dot has an extension. */
  lemma {:induction false} NoDotBefore(name: Name)
    ensures ExtStart(name) == |name| ==> forall j :: 0 <= j < |name| ==> name[j] != '.'
  {
    if name != [] && name[|name| - 1] != '.' {
      NoDotBefore(name[..|name| - 1]);
      assert forall j :: 0 <= j < |name| - 1 ==> name[..|name| - 1][j] == name[j];
    }
  }

  /** A numbered name has the extension of the name it is for, and begins with what that has before the
      extension; and it is another name. */
  lemma CandidateKeepsExtension(name: Name, index: nat)
    ensures var candidate := Candidate(name, index);
      && candidate[ExtStart(candidate)..] == name[ExtStart(name)..]
      && name[..ExtStart(name)] <= candidate[..ExtStart(candidate)]
      && candidate != name
  {
    var i := ExtStart(name);
    var base, number, extension := name[..i], " (" + Decimal(index) + ")", name[i..];
    var candidate := Candidate(name, index);
    assert candidate == base + number + extension;
    NumeralHasNoDot(index);
    NoDotBefore(name);
    var j := |base| + |number|;
    assert candidate[j..] == extension && candidate[..j] == base + number;
    forall k | j < k < |candidate| ensures candidate[k] != '.' {
      assert candidate[k] == name[i + k - j];
    }
    if i == |name| {
      forall k | 0 <= k < |candidate| ensures candidate[k] != '.' {
        assert candidate[k] == if k < |base| then name[k] else number[k - |base|];
      }
    }
    ExtStartIs(candidate, j);
  }

  function Last(p: Path): Name
    requires p != []
  {
    p[|p| - 1]
  }

  function Numbered(directory: Path, name: Name, index: nat): Path {
    directory + [Candidate(name, index)]
  }

  lemma NumberedIsInjective(directory: Path, name: Name, i: nat, j: nat)
    requires Numbered(directory, name, i) == Numbered(directory, name, j)
    ensures i == j
  {
    assert Numbered(directory, name, i)[|directory|] == Candidate(name, i);
    assert Numbered(directory, name, j)[|directory|] == Candidate(name, j);
    CandidateIsInjective(name, i, j);
  }

  /** The paths the search has tried before reaching an index. */
  ghost function Tried(parent: Path, name: Name, index: nat): set<Path>
    requires index >= 1
  {
    set i | 1 <= i < index :: Numbered(parent, name, i)
  }

  lemma {:induction false} TriedCount(parent: Path, name: Name, index: nat)
    requires index >= 1
    ensures |Tried(parent, name, index)| == index - 1
  {
    hide Numbered;
    if index > 1 {
      var less, last := Tried(parent, name, index - 1), Numbered(parent, name, index - 1);
      TriedCount(parent, name, index - 1);
      assert Tried(parent, name, index) == less + {last};
      forall i | 1 <= i < index - 1 ensures Numbered(parent, name, i) != last {
        if Numbered(parent, name, i) == last { NumberedIsInjective(parent, name, i, index - 1); }
      }
    }
  }

  lemma SubsetCount<T>(a: set<T>, b: set<T>)
    requires a <= b
    ensures |a| <= |b|
  {
    if a != {} {
      var x :| x in a;
      SubsetCount(a - {x}, b - {x});
    }
  }

  /** The first numbered name that is free; a finite directory cannot hold them all. */
  method AvailableExtractPath(tree: Tree, original: Path) returns (target: Path, ghost index: nat)
    requires original != []
    ensures target !in tree && target != [] && Parent(target) == Parent(original)
    ensures index >= 1 && target == Numbered(Parent(original), Last(original), index)
    ensures forall i :: 1 <= i < index ==> Numbered(Parent(original), Last(original), i) in tree
  {
    var parent, name := Parent(original), Last(original);
    var n := 1;
    while Numbered(parent, name, n) in tree
      invariant n >= 1 && forall i :: 1 <= i < n ==> Numbered(parent, name, i) in tree
      decreases |tree.Keys| + 1 - n
    {
      TriedCount(parent, name, n + 1);
      SubsetCount(Tried(parent, name, n + 1), tree.Keys);
      n := n + 1;
    }
    return Numbered(parent, name, n), n;
  }

  // ----- what the merge keeps and where it puts things

  /** A node is where it was, or, unless a directory, in the recycle bin. */
  ghost predicate Safe(p: Path, node: Node, after: Tree) {
    || (p in after && after[p] == node)
    || (node != Dir && exists q :: q in after && InBin(q) && after[q] == node)
  }

  ghost predicate Kept(policy: ConflictPolicy, before: Tree, after: Tree) {
    if policy == Overwrite then forall p :: p in before ==> Safe(p, before[p], after)
    else forall p :: p in before ==> p in after && after[p] == before[p]
  }

  /** Each archive file that was placed is in the tree, each at a place of its own. */
  ghost predicate InPlace(archive: Tree, placed: map<Path, Path>, tree: Tree) {
    && (forall r :: r in placed ==> r in archive && archive[r].File? && placed[r] in tree && tree[placed[r]] == archive[r])
    && (forall r, s :: r in placed && s in placed && r != s ==> placed[r] != placed[s])
  }

  /** The name of an entry in its target directory: its own, or under rename the first numbered one
      that was free when its own was taken. */
  ghost predicate Named(policy: ConflictPolicy, directory: Path, name: Name, target: Path, tree: Tree) {
    || target == directory + [name]
    || (policy == Rename && directory + [name] in tree
        && exists index :: NumberedFirst(directory, name, index, target, tree))
  }

  ghost predicate NumberedFirst(directory: Path, name: Name, index: nat, target: Path, tree: Tree) {
    && index >= 1 && target == Numbered(directory, name, index)
    && forall i :: 1 <= i < index ==> Numbered(directory, name, i) in tree
  }

  /** Something other than a directory stood where an archive directory, or one above it, was to go. */
  ghost predicate DirectoryBlocked(before: Tree, destination: Path, d: Path)
    decreases |d|
  {
    d != [] && (DirectoryBlocked(before, destination, Parent(d)) || (destination + d in before && before[destination + d] != Dir))
  }

  /** Anything stood where an archive file was to go, or a directory above it was blocked. */
  ghost predicate FileBlocked(before: Tree, destination: Path, r: Path) {
    r != [] && (DirectoryBlocked(before, destination, Parent(r)) || destination + r in before)
  }

  // ----- what a merge needs to go through

  /** What keeps an entry from its place, if no call fails: under overwrite, a directory where a file is
      to go, or what cannot be moved to the bin. */
  ghost predicate InTheWay(t: Tree, id: Name, natural: Path, node: Node) {
    && natural in t && (node == Dir ==> t[natural] != Dir)
    && (t[natural] == Dir || !CanRecycle(t, id, natural))
  }

  /** Nothing about the bin of a tree keeps entries n and later of an overwriting merge from it. */
  ghost predicate BinUsable(t: Tree, ids: seq<Name>, n: nat) {
    (BIN in t ==> t[BIN] == Dir) && forall m :: n <= m < |ids| ==> EntryPath(ids[m]) !in t
  }

  /** The identifiers are fresh, and no entry goes to the bin itself. */
  ghost predicate BinReady(before: Tree, destination: Path, archive: Tree, ids: seq<Name>) {
    && BinUsable(before, ids, 0) && (forall i, j :: 0 <= i < j < |ids| ==> ids[i] != ids[j])
    && (forall p :: p in archive ==> !InBin(destination + p))
  }

  /** At the place of an archive entry stood a directory where a file is to go, or a symbolic link. */
  ghost predicate Obstructed(before: Tree, destination: Path, archive: Tree) {
    exists p :: p in archive && p != [] && destination + p in before &&
      (if before[destination + p] == Dir then archive[p] != Dir else before[destination + p] == Symlink)
  }

  /** Nothing in the bin but the one entry is new, and the bin is a directory if it was. */
  ghost predicate UsesBin(t: Tree, u: Tree, id: Name) {
    && ((BIN in t ==> t[BIN] == Dir) && BIN in u ==> u[BIN] == Dir)
    && forall other :: other != id && EntryPath(other) in u ==> EntryPath(other) in t
  }

  lemma SameBin(t: Tree, id: Name)
    ensures UsesBin(t, t, id)
  {
  }

  lemma RecyclingUsesBin(t: Tree, id: Name, relative: Path)
    requires Recyclable(t, id, relative)
    ensures UsesBin(t, Recycled(t, id, relative), id)
  {
    var w := WithEntry(t, id, relative);
    assert |EntryPath(id)| == 2 && |DataPath(id)| == 3 && |BIN| == 1;
    MovedLookup(w, relative, DataPath(id), BIN);
    forall other | other != id && EntryPath(other) in Recycled(t, id, relative) ensures EntryPath(other) in t {
      MovedLookup(w, relative, DataPath(id), EntryPath(other));
      assert EntryPath(other)[1] == other && EntryPath(id)[1] == id;
    }
  }

  lemma AddingOutsideBin(t: Tree, id: Name, p: Path, node: Node)
    requires !InBin(p)
    ensures UsesBin(t, t[p := node], id)
  {
  }

  lemma UsesBinTwice(t: Tree, u: Tree, v: Tree, id: Name)
    requires UsesBin(t, u, id) && UsesBin(u, v, id)
    ensures UsesBin(t, v, id)
  {
  }

  lemma StillUsable(t: Tree, u: Tree, ids: seq<Name>, n: nat)
    requires n < |ids| && BinUsable(t, ids, n) && UsesBin(t, u, ids[n]) && forall i, j :: 0 <= i < j < |ids| ==> ids[i] != ids[j]
    ensures BinUsable(u, ids, n + 1)
  {
  }

  /** What is in the way of an entry stood there before the merge. */
  lemma StoodBefore(destination: Path, before: Tree, tree: Tree, archive: Tree, entries: seq<Path>, n: nat, progress: Progress)
    requires n < |entries| && IsWalk(entries, archive) && Merging(Overwrite, destination, before, tree, archive, entries, n, progress)
    requires destination + entries[n] in tree && !InBin(destination + entries[n])
    ensures destination + entries[n] in before && tree[destination + entries[n]] == before[destination + entries[n]]
  {
    hide Kept, Follows, InPlace, Made;
    var p := destination + entries[n];
    assert Explained(Overwrite, before, tree, progress, p);
    NotVisited(entries, n, archive);
    forall d | d in progress.targets ensures progress.targets[d] != p {
      PrefixedDiffer(destination, d, entries[n]);
    }
    forall r | r in progress.placed ensures progress.placed[r] != p {
      PrefixedDiffer(destination, r, entries[n]);
    }
  }

  lemma ObstructedBy(destination: Path, before: Tree, tree: Tree, archive: Tree, entries: seq<Path>, n: nat, progress: Progress, ids: seq<Name>)
    requires n < |entries| && |ids| == |entries| && IsWalk(entries, archive) && WellFormed(tree)
    requires Merging(Overwrite, destination, before, tree, archive, entries, n, progress)
    requires BinReady(before, destination, archive, ids) && BinUsable(tree, ids, n)
    requires entries[n] != [] && entries[n] in archive && InTheWay(tree, ids[n], destination + entries[n], archive[entries[n]])
    ensures Obstructed(before, destination, archive)
  {
    hide Merging, IsWalk;
    StoodBefore(destination, before, tree, archive, entries, n, progress);
    var p := entries[n];
    assert destination + p != [];
    assert if before[destination + p] == Dir then archive[p] != Dir else before[destination + p] == Symlink;
  }

  // ----- the walk

  /** The order of filepath.WalkDir: every entry once, a directory before what is in it. */
  ghost predicate IsWalk(entries: seq<Path>, archive: Tree) {
    && (forall i :: 0 <= i < |entries| ==> entries[i] in archive && entries[i] != [])
    && (forall p :: p in archive && p != [] ==> p in entries)
    && (forall i, j :: 0 <= i < j < |entries| ==> entries[i] != entries[j])
    && (forall i :: 0 <= i < |entries| && Parent(entries[i]) != [] ==> Parent(entries[i]) in entries[..i])
  }

  ghost predicate IsArchive(archive: Tree) {
    WellFormed(archive) && forall p :: p in archive ==> archive[p] == Dir || archive[p].File?
  }

  /** The state of the merge after some entries: where each directory went, and each file. */
  datatype Progress = Progress(targets: map<Path, Path>, placed: map<Path, Path>)

  /** A directory was given its target, or a file its place, beside its parent's target. */
  ghost predicate Follows(policy: ConflictPolicy, progress: Progress, tree: Tree) {
    && [] in progress.targets
    && (forall d :: d in progress.targets && d != [] ==>
         Parent(d) in progress.targets && Named(policy, progress.targets[Parent(d)], Last(d), progress.targets[d], tree))
    && (forall r :: r in progress.placed ==>
         r != [] && Parent(r) in progress.targets && Named(policy, progress.targets[Parent(r)], Last(r), progress.placed[r], tree))
  }

  /** Each directory target is a directory of the tree. */
  ghost predicate Made(progress: Progress, archive: Tree, tree: Tree) {
    forall d :: d in progress.targets ==>
      d in archive && archive[d] == Dir && progress.targets[d] in tree && tree[progress.targets[d]] == Dir
  }

  /** Under rename and overwrite every entry visited was taken over. */
  ghost predicate Complete(policy: ConflictPolicy, archive: Tree, entries: seq<Path>, n: nat, progress: Progress)
    requires n <= |entries|
  {
    && (forall d :: d in progress.targets ==> d == [] || d in entries[..n])
    && (forall r :: r in progress.placed ==> r in entries[..n])
    && (policy != Skip ==> forall p :: p in entries[..n] && p in archive ==>
         if archive[p] == Dir then p in progress.targets else p in progress.placed)
  }

  /** Nothing was renamed. */
  ghost predicate SamePaths(destination: Path, progress: Progress) {
    && (forall d :: d in progress.targets ==> progress.targets[d] == destination + d)
    && (forall r :: r in progress.placed ==> progress.placed[r] == destination + r)
  }

  /** What is new under Skip lies at the place of an entry visited so far. */
  ghost predicate NewIsVisited(destination: Path, before: Tree, tree: Tree, entries: seq<Path>, n: nat)
    requires n <= |entries|
  {
    forall p :: p in tree && p !in before ==> exists r :: r in entries[..n] && p == destination + r
  }

  /** Under skip the tree has gained entries visited only, and exactly the unblocked ones. */
  ghost predicate SkipExact(destination: Path, before: Tree, tree: Tree, archive: Tree, entries: seq<Path>, n: nat, progress: Progress)
    requires n <= |entries|
  {
    && NewIsVisited(destination, before, tree, entries, n)
    && (forall d :: d in entries[..n] && d in archive && archive[d] == Dir ==>
         (d in progress.targets <==> !DirectoryBlocked(before, destination, d)))
    && (forall r :: r in entries[..n] && r in archive && archive[r].File? ==>
         (r in progress.placed <==> !FileBlocked(before, destination, r)))
  }

  /** Where a node of the tree may come from: it was there, an entry of the archive went there, or it
      is in the bin, which gets files that were there only. */
  ghost predicate Explained(policy: ConflictPolicy, before: Tree, tree: Tree, progress: Progress, p: Path)
    requires p in tree
  {
    || (p in before && tree[p] == before[p])
    || (exists d :: d in progress.targets && progress.targets[d] == p)
    || (exists r :: r in progress.placed && progress.placed[r] == p)
    || (policy == Overwrite && InBin(p) && (tree[p].File? ==> exists q :: q in before && before[q] == tree[p]))
  }

  /** The merge has added nothing else and changed nothing else. */
  ghost predicate NothingElse(policy: ConflictPolicy, before: Tree, tree: Tree, progress: Progress) {
    forall p :: p in tree ==> Explained(policy, before, tree, progress, p)
  }

  ghost predicate Merging(policy: ConflictPolicy, destination: Path, before: Tree, tree: Tree, archive: Tree,
                          entries: seq<Path>, n: nat, progress: Progress)
    requires n <= |entries|
  {
    && Kept(policy, before, tree) && InPlace(archive, progress.placed, tree) && Made(progress, archive, tree)
    && Follows(policy, progress, tree) && Complete(policy, archive, entries, n, progress)
    && progress.targets[[]] == destination
    && (policy != Rename ==> SamePaths(destination, progress))
    && (policy == Skip ==> SkipExact(destination, before, tree, archive, entries, n, progress))
    && NothingElse(policy, before, tree, progress)
  }

  // ----- what one step keeps

  /** Everything of t is in u, but perhaps what was at one path. */
  ghost predicate ExtendsBut(t: Tree, u: Tree, gone: Path) {
    forall p :: p in t && p != gone ==> p in u && u[p] == t[p]
  }

  ghost predicate Extends(t: Tree, u: Tree) {
    forall p :: p in t ==> p in u && u[p] == t[p]
  }

  lemma KeptExtends(policy: ConflictPolicy, before: Tree, t: Tree, u: Tree)
    requires Kept(policy, before, t) && Extends(t, u)
    ensures Kept(policy, before, u)
  {
    if policy == Overwrite {
      forall p | p in before ensures Safe(p, before[p], u) {
        assert Safe(p, before[p], t);
      }
    }
  }

  lemma KeptRecycles(before: Tree, t: Tree, u: Tree, gone: Path, bin: Path)
    requires Kept(Overwrite, before, t) && ExtendsBut(t, u, gone)
    requires gone in t && !InBin(gone) && t[gone] != Dir && InBin(bin) && bin in u && u[bin] == t[gone]
    ensures Kept(Overwrite, before, u)
  {
    forall p | p in before ensures Safe(p, before[p], u) {
      assert Safe(p, before[p], t);
    }
  }

  lemma NamedExtends(policy: ConflictPolicy, directory: Path, name: Name, target: Path, t: Tree, u: Tree)
    requires Named(policy, directory, name, target, t) && (policy == Rename ==> Extends(t, u))
    ensures Named(policy, directory, name, target, u)
  {
    if target != directory + [name] {
      var index :| NumberedFirst(directory, name, index, target, t);
      assert NumberedFirst(directory, name, index, target, u);
    }
  }

  lemma FollowsExtends(policy: ConflictPolicy, progress: Progress, t: Tree, u: Tree)
    requires Follows(policy, progress, t) && (policy == Rename ==> Extends(t, u))
    ensures Follows(policy, progress, u)
  {
    forall d | d in progress.targets && d != []
      ensures Named(policy, progress.targets[Parent(d)], Last(d), progress.targets[d], u)
    {
      NamedExtends(policy, progress.targets[Parent(d)], Last(d), progress.targets[d], t, u);
    }
    forall r | r in progress.placed
      ensures Named(policy, progress.targets[Parent(r)], Last(r), progress.placed[r], u)
    {
      NamedExtends(policy, progress.targets[Parent(r)], Last(r), progress.placed[r], t, u);
    }
  }

  /** A file that is in the way goes to the bin; no archive file went to its path before. */
  lemma RecycledKeepsMerging(destination: Path, before: Tree, t: Tree, u: Tree, archive: Tree, entries: seq<Path>, n: nat,
                             progress: Progress, bin: Path)
    requires n < |entries| && IsWalk(entries, archive)
    requires Merging(Overwrite, destination, before, t, archive, entries, n, progress)
    requires var gone := destination + entries[n];
      && gone in t && !InBin(gone) && t[gone] != Dir && ExtendsBut(t, u, gone) && gone !in u
      && InBin(bin) && bin in u && u[bin] == t[gone] && OnlyBinGains(t, u, t[gone])
    ensures Merging(Overwrite, destination, before, u, archive, entries, n, progress)
  {
    hide Kept, Follows, IsWalk, NothingElse, Named, InPlace, Made, Complete, SamePaths, ExtendsBut, OnlyBinGains;
    var gone := destination + entries[n];
    KeptRecycles(before, t, u, gone, bin);
    FollowsExtends(Overwrite, progress, t, u);
    NotPlacedAt(destination, archive, entries, n, progress);
    InPlaceBut(archive, progress.placed, t, u, gone);
    MadeBut(progress, archive, t, u, gone);
    NothingElseRecycled(before, t, u, archive, progress, gone);
  }

  lemma NotPlacedAt(destination: Path, archive: Tree, entries: seq<Path>, n: nat, progress: Progress)
    requires n < |entries| && IsWalk(entries, archive)
    requires Complete(Overwrite, archive, entries, n, progress) && SamePaths(destination, progress)
    ensures forall r :: r in progress.placed ==> progress.placed[r] != destination + entries[n]
  {
    hide IsWalk;
    NotVisited(entries, n, archive);
    forall r | r in progress.placed ensures progress.placed[r] != destination + entries[n] {
      assert r in entries[..n];
      PrefixedDiffer(destination, r, entries[n]);
    }
  }

  lemma InPlaceBut(archive: Tree, placed: map<Path, Path>, t: Tree, u: Tree, gone: Path)
    requires InPlace(archive, placed, t) && ExtendsBut(t, u, gone) && forall r :: r in placed ==> placed[r] != gone
    ensures InPlace(archive, placed, u)
  {
  }

  lemma MadeBut(progress: Progress, archive: Tree, t: Tree, u: Tree, gone: Path)
    requires Made(progress, archive, t) && ExtendsBut(t, u, gone) && gone in t && t[gone] != Dir
    ensures Made(progress, archive, u)
  {
  }

  /** Anything new is in the bin, and no file but the one that went there. */
  ghost predicate OnlyBinGains(t: Tree, u: Tree, node: Node) {
    forall q :: q in u && q !in t ==> InBin(q) && (u[q].File? ==> u[q] == node)
  }

  lemma NothingElseRecycled(before: Tree, t: Tree, u: Tree, archive: Tree, progress: Progress, gone: Path)
    requires NothingElse(Overwrite, before, t, progress) && Made(progress, archive, t)
    requires gone in t && !InBin(gone) && t[gone] != Dir && ExtendsBut(t, u, gone) && gone !in u && OnlyBinGains(t, u, t[gone])
    requires forall r :: r in progress.placed ==> progress.placed[r] != gone
    ensures NothingElse(Overwrite, before, u, progress)
  {
    assert Explained(Overwrite, before, t, progress, gone);
    assert gone in before && before[gone] == t[gone];
    forall p | p in u ensures Explained(Overwrite, before, u, progress, p) {
      if p in t { assert Explained(Overwrite, before, t, progress, p); }
    }
  }

  lemma NothingElseDirectory(policy: ConflictPolicy, before: Tree, t: Tree, u: Tree, progress: Progress, d: Path, target: Path)
    requires NothingElse(policy, before, t, progress) && d !in progress.targets && Extends(t, u)
    requires forall q :: q in u && q !in t ==> q == target
    ensures NothingElse(policy, before, u, Progress(progress.targets[d := target], progress.placed))
  {
    var next := Progress(progress.targets[d := target], progress.placed);
    forall p | p in u ensures Explained(policy, before, u, next, p) {
      if p in t {
        assert Explained(policy, before, t, progress, p);
        ExplainedStill(policy, before, t, u, progress, next, p);
      } else {
        assert next.targets[d] == p;
      }
    }
  }

  lemma NothingElseFile(policy: ConflictPolicy, before: Tree, t: Tree, u: Tree, progress: Progress, r: Path, target: Path)
    requires NothingElse(policy, before, t, progress) && r !in progress.placed && Extends(t, u)
    requires forall q :: q in u && q !in t ==> q == target
    ensures NothingElse(policy, before, u, Progress(progress.targets, progress.placed[r := target]))
  {
    var next := Progress(progress.targets, progress.placed[r := target]);
    forall p | p in u ensures Explained(policy, before, u, next, p) {
      if p in t {
        assert Explained(policy, before, t, progress, p);
        ExplainedStill(policy, before, t, u, progress, next, p);
      } else {
        assert next.placed[r] == p;
      }
    }
  }

  lemma ExplainedStill(policy: ConflictPolicy, before: Tree, t: Tree, u: Tree, progress: Progress, next: Progress, p: Path)
    requires p in t && p in u && u[p] == t[p] && Explained(policy, before, t, progress, p)
    requires forall d :: d in progress.targets ==> d in next.targets && next.targets[d] == progress.targets[d]
    requires forall r :: r in progress.placed ==> r in next.placed && next.placed[r] == progress.placed[r]
    ensures Explained(policy, before, u, next, p)
  {
  }

  lemma PrefixedDiffer(front: Path, a: Path, b: Path)
    ensures front + a == front + b ==> a == b
  {
    assert (front + a)[|front|..] == a && (front + b)[|front|..] == b;
  }

  lemma OneMoreVisited(entries: seq<Path>, n: nat)
    requires n < |entries|
    ensures forall p :: p in entries[..n + 1] <==> p in entries[..n] || p == entries[n]
  {
    assert entries[..n + 1] == entries[..n] + [entries[n]];
  }

  lemma NotVisited(entries: seq<Path>, n: nat, archive: Tree)
    requires n < |entries| && IsWalk(entries, archive)
    ensures entries[n] !in entries[..n]
    ensures forall p :: p in entries[..n + 1] <==> p in entries[..n] || p == entries[n]
  {
    hide IsWalk;
    OneMoreVisited(entries, n);
    WalkIsDistinct(entries, n, archive);
  }

  lemma WalkIsDistinct(entries: seq<Path>, n: nat, archive: Tree)
    requires n < |entries| && IsWalk(entries, archive)
    ensures forall i :: 0 <= i < n ==> entries[i] != entries[n]
  {
  }

  /** Under skip, what blocks an entry was there before. */
  lemma TakenBefore(destination: Path, before: Tree, tree: Tree, archive: Tree, entries: seq<Path>, n: nat, progress: Progress)
    requires n < |entries| && IsWalk(entries, archive)
    requires Merging(Skip, destination, before, tree, archive, entries, n, progress)
    ensures destination + entries[n] in tree <==> destination + entries[n] in before
    ensures destination + entries[n] in before ==> tree[destination + entries[n]] == before[destination + entries[n]]
  {
    NotVisited(entries, n, archive);
    forall r | r in entries[..n] ensures destination + r != destination + entries[n] {
      PrefixedDiffer(destination, r, entries[n]);
    }
  }

  /** The directory of an entry has its target unless it was skipped. */
  lemma ParentTarget(policy: ConflictPolicy, destination: Path, before: Tree, tree: Tree, archive: Tree, entries: seq<Path>, n: nat,
                     progress: Progress)
    requires n < |entries| && IsWalk(entries, archive) && IsArchive(archive)
    requires Merging(policy, destination, before, tree, archive, entries, n, progress)
    ensures var parent := Parent(entries[n]);
      && (parent !in progress.targets ==> policy == Skip)
      && (policy == Skip ==> (parent in progress.targets <==> !DirectoryBlocked(before, destination, parent)))
      && parent in archive && archive[parent] == Dir
  {
  }

  /** An entry that is skipped because of its directory or of what is at its place. */
  lemma SkipExactBlocked(destination: Path, before: Tree, tree: Tree, archive: Tree, entries: seq<Path>, n: nat, progress: Progress)
    requires n < |entries| && IsWalk(entries, archive)
    requires Complete(Skip, archive, entries, n, progress) && SkipExact(destination, before, tree, archive, entries, n, progress)
    requires var p := entries[n];
      if archive[p] == Dir then DirectoryBlocked(before, destination, p) else FileBlocked(before, destination, p)
    ensures Complete(Skip, archive, entries, n + 1, progress)
    ensures SkipExact(destination, before, tree, archive, entries, n + 1, progress)
  {
    hide DirectoryBlocked, FileBlocked;
    assert entries[n] in archive && entries[n] != [];
    hide IsWalk;
    NotVisited(entries, n, archive);
    VisitOneMore(destination, before, tree, tree, entries, n);
    hide NewIsVisited;
  }

  lemma EntrySkipped(destination: Path, before: Tree, tree: Tree, archive: Tree, entries: seq<Path>, n: nat, progress: Progress)
    requires n < |entries| && IsWalk(entries, archive) && IsArchive(archive)
    requires Merging(Skip, destination, before, tree, archive, entries, n, progress)
    requires var p := entries[n];
      if archive[p] == Dir then DirectoryBlocked(before, destination, p) else FileBlocked(before, destination, p)
    ensures Merging(Skip, destination, before, tree, archive, entries, n + 1, progress)
  {
    hide Kept, InPlace, Made, Follows, Complete, SamePaths, SkipExact, NothingElse, IsArchive, DirectoryBlocked, FileBlocked;
    SkipExactBlocked(destination, before, tree, archive, entries, n, progress);
  }

  ghost predicate StepsTo(policy: ConflictPolicy, destination: Path, before: Tree, tree: Tree, p: Path, progress: Progress,
                          target: Path, after: Tree)
  {
    && p != [] && Parent(p) in progress.targets
    && Named(policy, progress.targets[Parent(p)], Last(p), target, after)
    && Extends(tree, after)
    && forall q :: q in after && q !in tree ==> q == target
  }

  lemma StaysPut(policy: ConflictPolicy, destination: Path, before: Tree, tree: Tree, p: Path, progress: Progress, target: Path)
    requires p != [] && Parent(p) in progress.targets
    requires Named(policy, progress.targets[Parent(p)], Last(p), target, tree)
    ensures StepsTo(policy, destination, before, tree, p, progress, target, tree)
  {
    hide Named;
  }

  lemma OneNew(policy: ConflictPolicy, destination: Path, before: Tree, tree: Tree, p: Path, progress: Progress, target: Path, after: Tree)
    requires p != [] && Parent(p) in progress.targets
    requires Named(policy, progress.targets[Parent(p)], Last(p), target, tree)
    requires target !in tree && target in after && after == tree[target := after[target]]
    ensures StepsTo(policy, destination, before, tree, p, progress, target, after)
  {
    hide Named;
    assert Extends(tree, after);
    NamedExtends(policy, progress.targets[Parent(p)], Last(p), target, tree, after);
  }

  lemma InPlaceExtends(archive: Tree, placed: map<Path, Path>, t: Tree, u: Tree)
    requires InPlace(archive, placed, t) && Extends(t, u)
    ensures InPlace(archive, placed, u)
  {
  }

  lemma MadeExtends(progress: Progress, archive: Tree, t: Tree, u: Tree)
    requires Made(progress, archive, t) && Extends(t, u)
    ensures Made(progress, archive, u)
  {
  }

  lemma FollowsDirectory(policy: ConflictPolicy, progress: Progress, u: Tree, p: Path, target: Path)
    requires Follows(policy, progress, u) && p != [] && p !in progress.targets && Parent(p) in progress.targets
    requires Named(policy, progress.targets[Parent(p)], Last(p), target, u)
    ensures Follows(policy, Progress(progress.targets[p := target], progress.placed), u)
  {
    assert Parent(p) != p;
  }

  lemma FollowsFile(policy: ConflictPolicy, progress: Progress, u: Tree, p: Path, target: Path)
    requires Follows(policy, progress, u) && p != [] && Parent(p) in progress.targets
    requires Named(policy, progress.targets[Parent(p)], Last(p), target, u)
    ensures Follows(policy, Progress(progress.targets, progress.placed[p := target]), u)
  {
  }

  lemma CompleteOneMore(policy: ConflictPolicy, archive: Tree, entries: seq<Path>, n: nat, progress: Progress, target: Path)
    requires n < |entries| && IsWalk(entries, archive) && Complete(policy, archive, entries, n, progress)
    ensures archive[entries[n]] == Dir ==>
      Complete(policy, archive, entries, n + 1, Progress(progress.targets[entries[n] := target], progress.placed))
    ensures archive[entries[n]].File? ==>
      Complete(policy, archive, entries, n + 1, Progress(progress.targets, progress.placed[entries[n] := target]))
  {
    NotVisited(entries, n, archive);
  }

  lemma VisitOneMore(destination: Path, before: Tree, tree: Tree, after: Tree, entries: seq<Path>, n: nat)
    requires n < |entries| && NewIsVisited(destination, before, tree, entries, n)
    requires forall q :: q in after && q !in tree ==> q == destination + entries[n]
    ensures NewIsVisited(destination, before, after, entries, n + 1)
  {
    OneMoreVisited(entries, n);
    forall p | p in after && p !in before ensures exists r :: r in entries[..n + 1] && p == destination + r {
      if p in tree {
        var r :| r in entries[..n] && p == destination + r;
        assert r in entries[..n + 1];
      } else {
        assert entries[n] in entries[..n + 1];
      }
    }
  }

  lemma SkipExactDirectory(destination: Path, before: Tree, tree: Tree, after: Tree, archive: Tree, entries: seq<Path>, n: nat,
                           progress: Progress)
    requires n < |entries| && IsWalk(entries, archive) && archive[entries[n]] == Dir
    requires SkipExact(destination, before, tree, archive, entries, n, progress)
    requires !DirectoryBlocked(before, destination, entries[n])
    requires forall q :: q in after && q !in tree ==> q == destination + entries[n]
    ensures SkipExact(destination, before, after, archive, entries, n + 1,
                      Progress(progress.targets[entries[n] := destination + entries[n]], progress.placed))
  {
    hide DirectoryBlocked, FileBlocked;
    assert entries[n] in archive;
    hide IsWalk;
    NotVisited(entries, n, archive);
    VisitOneMore(destination, before, tree, after, entries, n);
    hide NewIsVisited;
  }

  lemma SkipExactFile(destination: Path, before: Tree, tree: Tree, after: Tree, archive: Tree, entries: seq<Path>, n: nat,
                      progress: Progress)
    requires n < |entries| && IsWalk(entries, archive) && archive[entries[n]].File?
    requires SkipExact(destination, before, tree, archive, entries, n, progress)
    requires !FileBlocked(before, destination, entries[n])
    requires forall q :: q in after && q !in tree ==> q == destination + entries[n]
    ensures SkipExact(destination, before, after, archive, entries, n + 1,
                      Progress(progress.targets, progress.placed[entries[n] := destination + entries[n]]))
  {
    hide DirectoryBlocked, FileBlocked;
    assert entries[n] in archive;
    hide IsWalk;
    NotVisited(entries, n, archive);
    VisitOneMore(destination, before, tree, after, entries, n);
    hide NewIsVisited;
  }

  /** Unless renaming, the target is the path under the destination. */
  lemma TargetPath(policy: ConflictPolicy, destination: Path, progress: Progress, tree: Tree, p: Path, target: Path)
    requires policy != Rename && SamePaths(destination, progress) && p != [] && Parent(p) in progress.targets
    requires Named(policy, progress.targets[Parent(p)], Last(p), target, tree)
    ensures target == destination + p
  {
    PathIsParentAndLast(destination, p);
  }

  lemma NotTaken(policy: ConflictPolicy, archive: Tree, entries: seq<Path>, n: nat, progress: Progress)
    requires n < |entries| && IsWalk(entries, archive) && Complete(policy, archive, entries, n, progress)
    ensures entries[n] !in progress.targets && entries[n] !in progress.placed
  {
    NotVisited(entries, n, archive);
  }

  lemma MadeOneMore(progress: Progress, archive: Tree, u: Tree, p: Path, target: Path)
    requires Made(progress, archive, u) && p in archive && archive[p] == Dir && target in u && u[target] == Dir
    ensures Made(Progress(progress.targets[p := target], progress.placed), archive, u)
  {
  }

  lemma MadeWhatever(progress: Progress, archive: Tree, u: Tree, placed: map<Path, Path>)
    requires Made(progress, archive, u)
    ensures Made(Progress(progress.targets, placed), archive, u)
  {
  }

  lemma SamePathsOneMore(destination: Path, progress: Progress, p: Path)
    requires SamePaths(destination, progress)
    ensures SamePaths(destination, Progress(progress.targets[p := destination + p], progress.placed))
    ensures SamePaths(destination, Progress(progress.targets, progress.placed[p := destination + p]))
  {
  }

  lemma DirectoryTaken(policy: ConflictPolicy, destination: Path, before: Tree, tree: Tree, archive: Tree, entries: seq<Path>,
                       n: nat, progress: Progress, target: Path, after: Tree)
    requires n < |entries| && IsWalk(entries, archive) && IsArchive(archive)
    requires entries[n] != [] && entries[n] in archive && archive[entries[n]] == Dir
    requires Merging(policy, destination, before, tree, archive, entries, n, progress)
    requires StepsTo(policy, destination, before, tree, entries[n], progress, target, after)
    requires target in after && after[target] == Dir
    requires policy == Skip ==> !DirectoryBlocked(before, destination, entries[n])
    ensures Merging(policy, destination, before, after, archive, entries, n + 1,
                    Progress(progress.targets[entries[n] := target], progress.placed))
  {
    hide Kept, InPlace, Named, SkipExact, DirectoryBlocked, FileBlocked, Made, Follows, Complete, SamePaths, IsWalk, IsArchive, Extends, NothingElse;
    var p := entries[n];
    NotTaken(policy, archive, entries, n, progress);
    KeptExtends(policy, before, tree, after);
    InPlaceExtends(archive, progress.placed, tree, after);
    MadeExtends(progress, archive, tree, after);
    MadeOneMore(progress, archive, after, p, target);
    FollowsExtends(policy, progress, tree, after);
    FollowsDirectory(policy, progress, after, p, target);
    CompleteOneMore(policy, archive, entries, n, progress, target);
    if policy != Rename {
      TargetPath(policy, destination, progress, after, p, target);
      SamePathsOneMore(destination, progress, p);
    }
    NothingElseDirectory(policy, before, tree, after, progress, p, target);
    if policy == Skip { SkipExactDirectory(destination, before, tree, after, archive, entries, n, progress); }
  }

  lemma InPlaceOneMore(archive: Tree, placed: map<Path, Path>, t: Tree, p: Path, target: Path)
    requires InPlace(archive, placed, t) && p in archive && archive[p].File? && target !in t
    ensures InPlace(archive, placed[p := target], t[target := archive[p]])
  {
  }

  lemma FileTaken(policy: ConflictPolicy, destination: Path, before: Tree, tree: Tree, archive: Tree, entries: seq<Path>,
                  n: nat, progress: Progress, target: Path, after: Tree)
    requires n < |entries| && IsWalk(entries, archive) && IsArchive(archive)
    requires entries[n] != [] && entries[n] in archive && archive[entries[n]].File?
    requires Merging(policy, destination, before, tree, archive, entries, n, progress)
    requires StepsTo(policy, destination, before, tree, entries[n], progress, target, after)
    requires target !in tree && after == tree[target := archive[entries[n]]]
    requires policy == Skip ==> !FileBlocked(before, destination, entries[n])
    ensures Merging(policy, destination, before, after, archive, entries, n + 1,
                    Progress(progress.targets, progress.placed[entries[n] := target]))
  {
    hide Kept, InPlace, Named, SkipExact, DirectoryBlocked, FileBlocked, Made, Follows, Complete, SamePaths, IsWalk, IsArchive, Extends, NothingElse;
    var p := entries[n];
    KeptExtends(policy, before, tree, after);
    InPlaceOneMore(archive, progress.placed, tree, p, target);
    MadeExtends(progress, archive, tree, after);
    FollowsExtends(policy, progress, tree, after);
    MadeWhatever(progress, archive, after, progress.placed[p := target]);
    FollowsFile(policy, progress, after, p, target);
    CompleteOneMore(policy, archive, entries, n, progress, target);
    if policy != Rename {
      TargetPath(policy, destination, progress, after, p, target);
      SamePathsOneMore(destination, progress, p);
    }
    NotTaken(policy, archive, entries, n, progress);
    NothingElseFile(policy, before, tree, after, progress, p, target);
    if policy == Skip { SkipExactFile(destination, before, tree, after, archive, entries, n, progress); }
  }

  lemma PathIsParentAndLast(front: Path, p: Path)
    requires p != []
    ensures front + Parent(p) + [Last(p)] == front + p
  {
  }

  // ----- the algorithm

  lemma RecycledExtends(t: Tree, id: Name, p: Path)
    requires Recyclable(t, id, p) && t[p] != Dir
    ensures var u := Recycled(t, id, p);
      ExtendsBut(t, u, p) && p !in u && DataPath(id) in u && u[DataPath(id)] == t[p] && OnlyBinGains(t, u, t[p])
  {
    var w, u := WithEntry(t, id, p), Recycled(t, id, p);
    WithEntryFacts(t, id, p);
    assert p[0] != RECYCLE_BIN && DataPath(id)[0] == RECYCLE_BIN;
    MovedLookup(w, p, DataPath(id), DataPath(id));
    assert p + DataPath(id)[|DataPath(id)|..] == p;
    forall q | q in t && q != p ensures q in u && u[q] == t[q] {
      MovedLookup(w, p, DataPath(id), q);
      if p <= q { AncestorsExist(t, q, p); }
      if DataPath(id) <= q { EntryIsFresh(t, id, q); }
    }
    MovedLookup(w, p, DataPath(id), p);
    RecycledGains(t, id, p);
  }

  lemma RecycledGains(t: Tree, id: Name, p: Path)
    requires Recyclable(t, id, p) && t[p] != Dir
    ensures OnlyBinGains(t, Recycled(t, id, p), t[p])
  {
    hide Moved, Files;
    var w, u := WithEntry(t, id, p), Recycled(t, id, p);
    RecycledFacts(t, id, p);
    MovedLookup(w, p, DataPath(id), DataPath(id));
    assert p + DataPath(id)[|DataPath(id)|..] == p;
    forall q | q in u && q !in t ensures InBin(q) && (u[q].File? ==> u[q] == t[p]) {
      MovedLookup(w, p, DataPath(id), q);
      if DataPath(id) <= q { AncestorsExist(u, q, DataPath(id)); }
    }
  }

  class Extraction {
    const files: FileService
    const destination: Path
    const policy: ConflictPolicy
    const archive: Tree
    var targets: map<Path, Path>
    ghost var placed: map<Path, Path>

    ghost predicate Ready()
      reads files.disk`tree, files.disk`nextNumber
    {
      files.disk.Valid() && IsArchive(archive) && forall p :: p in archive && archive[p].File? ==> archive[p].number < files.disk.nextNumber
    }

    ghost predicate Invariant(before: Tree, entries: seq<Path>, n: nat)
      requires n <= |entries|
      reads this, files.disk`tree, files.disk`nextNumber
    {
      Ready() && IsWalk(entries, archive)
      && Merging(policy, destination, before, files.disk.tree, archive, entries, n, Progress(targets, placed))
    }

    constructor (files: FileService, destination: Path, policy: ConflictPolicy, archive: Tree)
      ensures this.files == files && this.destination == destination && this.policy == policy && this.archive == archive
      ensures targets == map[[] := destination] && placed == map[]
    {
      this.files, this.destination, this.policy, this.archive := files, destination, policy, archive;
      targets, placed := map[[] := destination], map[];
    }

    /** recycleExtractTarget of the file in the way of entry n. */
    method RecycleTarget(id: Name, ghost before: Tree, ghost entries: seq<Path>, ghost n: nat, target: Path) returns (result: Outcome)
      requires n < |entries| && Invariant(before, entries, n) && policy == Overwrite
      requires target == destination + entries[n] && target in files.disk.tree && files.disk.tree[target] != Dir
      modifies files.disk`tree, files.disk`faults
      ensures Ready() && Kept(policy, before, files.disk.tree)
      ensures result.Done? ==> Invariant(before, entries, n) && target !in files.disk.tree
      ensures result.Done? ==> UsesBin(old(files.disk.tree), files.disk.tree, id)
      ensures files.disk.faults >= old(files.disk.faults)
      ensures files.disk.faults == old(files.disk.faults) ==> (result.Done? <==> CanRecycle(old(files.disk.tree), id, target))
    {
      hide Kept, Merging, IsWalk;
      ghost var t := files.disk.tree;
      result := files.MoveToRecycleBin(id, target);
      MergingKeeps(policy, destination, before, t, archive, entries, n, Progress(targets, placed));
      if result.Done? {
        RecycledExtends(t, id, target);
        RecyclingUsesBin(t, id, target);
        RecycledKeepsMerging(destination, before, t, files.disk.tree, archive, entries, n, Progress(targets, placed), DataPath(id));
        MergingKeeps(policy, destination, before, files.disk.tree, archive, entries, n, Progress(targets, placed));
      } else {
        KeptExtends(policy, before, t, files.disk.tree);
      }
    }

    /** What to do about a conflict: where to put the entry, or that it is skipped. */
    method Resolve(id: Name, ghost before: Tree, ghost entries: seq<Path>, ghost n: nat, ghost p: Path, natural: Path)
      returns (result: Outcome, target: Path)
      requires n < |entries| && Invariant(before, entries, n) && policy != Skip && p == entries[n]
      requires p != [] && Parent(p) in targets && natural == targets[Parent(p)] + [Last(p)]
      requires natural in files.disk.tree && (policy == Overwrite ==> files.disk.tree[natural] != Dir)
      modifies files.disk`tree, files.disk`faults
      ensures Ready() && Kept(policy, before, files.disk.tree)
      ensures result.Done? ==> Invariant(before, entries, n) && target !in files.disk.tree && target != []
      ensures result.Done? ==> Named(policy, targets[Parent(p)], Last(p), target, files.disk.tree)
      ensures result.Done? ==> Parent(target) == targets[Parent(p)]
      ensures result.Done? && policy == Overwrite ==> target == natural && UsesBin(old(files.disk.tree), files.disk.tree, id)
      ensures files.disk.faults >= old(files.disk.faults)
      ensures files.disk.faults == old(files.disk.faults) && result.Failed? ==>
        policy == Overwrite && !CanRecycle(old(files.disk.tree), id, natural)
    {
      hide Kept, Merging, IsWalk, DirectoryBlocked, FileBlocked, IsArchive, CanRecycle, UsesBin;
      MergingKeeps(policy, destination, before, files.disk.tree, archive, entries, n, Progress(targets, placed));
      if policy == Rename {
        ghost var index;
        target, index := AvailableExtractPath(files.disk.tree, natural);
        assert Parent(natural) == targets[Parent(p)] && Last(natural) == Last(p);
        assert NumberedFirst(targets[Parent(p)], Last(p), index, target, files.disk.tree);
        return Done, target;
      }
      NaturalPath(policy, destination, before, files.disk.tree, archive, entries, n, Progress(targets, placed), p);
      result := RecycleTarget(id, before, entries, n, natural);
      target := natural;
    }

    /** Makes the directory of an entry at its target, which is free. */
    method MakeDirectory(ghost id: Name, ghost before: Tree, ghost entries: seq<Path>, ghost n: nat, p: Path, target: Path) returns (result: Outcome)
      requires n < |entries| && Invariant(before, entries, n) && p == entries[n] && p != [] && p in archive && archive[p] == Dir
      requires Parent(p) in targets && target != [] && Parent(target) == targets[Parent(p)]
      requires target !in files.disk.tree && Named(policy, targets[Parent(p)], Last(p), target, files.disk.tree)
      requires policy == Skip ==> !DirectoryBlocked(before, destination, p)
      modifies this, files.disk`tree, files.disk`faults
      ensures Ready() && Kept(policy, before, files.disk.tree)
      ensures result.Done? ==> Invariant(before, entries, n + 1)
      ensures result.Done? && !InBin(target) ==> UsesBin(old(files.disk.tree), files.disk.tree, id)
      ensures files.disk.faults >= old(files.disk.faults) && (result.Failed? ==> files.disk.faults > old(files.disk.faults))
    {
      hide Kept, Merging, IsWalk, DirectoryBlocked, FileBlocked, IsArchive, WellFormed, Named, StepsTo, Extends, UsesBin;
      ghost var t, progress := files.disk.tree, Progress(targets, placed);
      TargetIsDirectory(policy, destination, before, t, archive, entries, n, progress, Parent(p));
      MergingKeeps(policy, destination, before, t, archive, entries, n, progress);
      var status := files.disk.Mkdir(target);
      if status != Ok {
        return Failed(FileError(status));
      }
      OneNew(policy, destination, before, t, p, progress, target, files.disk.tree);
      DirectoryTaken(policy, destination, before, t, archive, entries, n, progress, target, files.disk.tree);
      if !InBin(target) { AddingOutsideBin(t, id, target, Dir); }
      targets := targets[p := target];
      MergingKeeps(policy, destination, before, files.disk.tree, archive, entries, n + 1, Progress(targets, placed));
      return Done;
    }

    method TakeDirectory(id: Name, ghost before: Tree, ghost entries: seq<Path>, ghost n: nat, p: Path) returns (result: Outcome)
      requires n < |entries| && Invariant(before, entries, n) && p == entries[n] && p != [] && p in archive && archive[p] == Dir && Parent(p) in targets
      modifies this, files.disk`tree, files.disk`faults
      ensures Ready() && Kept(policy, before, files.disk.tree)
      ensures result.Done? ==> Invariant(before, entries, n + 1)
      ensures files.disk.faults >= old(files.disk.faults)
      ensures result.Done? && policy == Overwrite && !InBin(old(targets)[Parent(p)] + [Last(p)]) ==>
        UsesBin(old(files.disk.tree), files.disk.tree, id)
      ensures files.disk.faults == old(files.disk.faults) && result.Failed? ==>
        policy == Overwrite && InTheWay(old(files.disk.tree), id, old(targets)[Parent(p)] + [Last(p)], archive[p])
    {
      hide Kept, Merging, IsWalk, DirectoryBlocked, FileBlocked, IsArchive, WellFormed, Named, StepsTo, Extends, UsesBin, CanRecycle;
      ghost var start, progress := files.disk.tree, Progress(targets, placed);
      SameBin(start, id);
      EntryFacts(policy, destination, before, files.disk.tree, archive, entries, n, progress);
      var natural := targets[Parent(p)] + [Last(p)];
      var target := natural;
      var status, node := files.disk.Lstat(natural);
      if status == Ok && node == Dir {
        StaysPut(policy, destination, before, files.disk.tree, p, progress, natural);
        DirectoryTaken(policy, destination, before, files.disk.tree, archive, entries, n, progress, natural, files.disk.tree);
        targets := targets[p := natural];
        MergingKeeps(policy, destination, before, files.disk.tree, archive, entries, n + 1, Progress(targets, placed));
        return Done;
      }
      if status == Ok && policy == Skip {
        EntrySkipped(destination, before, files.disk.tree, archive, entries, n, progress);
        return Done;
      }
      if status == Ok {
        result, target := Resolve(id, before, entries, n, p, natural);
        if result.Failed? {
          return;
        }
      } else if status != NotExist {
        return Failed(FileError(status));
      }
      ghost var t := files.disk.tree;
      result := MakeDirectory(id, before, entries, n, p, target);
      if policy == Overwrite && result.Done? && !InBin(natural) { UsesBinTwice(start, t, files.disk.tree, id); }
    }

    /** Moves the file of an entry to its target, which is free. */
    method PlaceFile(ghost id: Name, ghost before: Tree, ghost entries: seq<Path>, ghost n: nat, p: Path, target: Path) returns (result: Outcome)
      requires n < |entries| && Invariant(before, entries, n) && p == entries[n] && p != [] && p in archive && archive[p].File?
      requires Parent(p) in targets && target != [] && Parent(target) == targets[Parent(p)]
      requires target !in files.disk.tree && Named(policy, targets[Parent(p)], Last(p), target, files.disk.tree)
      requires policy == Skip ==> !FileBlocked(before, destination, p)
      modifies this, files.disk`tree, files.disk`faults
      ensures Ready() && Kept(policy, before, files.disk.tree) && targets == old(targets)
      ensures result.Done? ==> Invariant(before, entries, n + 1)
      ensures result.Done? && !InBin(target) ==> UsesBin(old(files.disk.tree), files.disk.tree, id)
      ensures files.disk.faults >= old(files.disk.faults) && (result.Failed? ==> files.disk.faults > old(files.disk.faults))
    {
      hide Kept, Merging, IsWalk, DirectoryBlocked, FileBlocked, IsArchive, WellFormed, Named, StepsTo, Extends, UsesBin;
      ghost var t, progress := files.disk.tree, Progress(targets, placed);
      TargetIsDirectory(policy, destination, before, t, archive, entries, n, progress, Parent(p));
      MergingKeeps(policy, destination, before, t, archive, entries, n, progress);
      var status := files.disk.MoveIn(target, archive[p]);
      if status != Ok {
        return Failed(FileError(status));
      }
      OneNew(policy, destination, before, t, p, progress, target, files.disk.tree);
      FileTaken(policy, destination, before, t, archive, entries, n, progress, target, files.disk.tree);
      if !InBin(target) { AddingOutsideBin(t, id, target, archive[p]); }
      placed := placed[p := target];
      MergingKeeps(policy, destination, before, files.disk.tree, archive, entries, n + 1, Progress(targets, placed));
      return Done;
    }

    method TakeFile(id: Name, ghost before: Tree, ghost entries: seq<Path>, ghost n: nat, p: Path) returns (result: Outcome)
      requires n < |entries| && Invariant(before, entries, n) && p == entries[n] && p != [] && p in archive && archive[p].File? && Parent(p) in targets
      modifies this, files.disk`tree, files.disk`faults
      ensures Ready() && Kept(policy, before, files.disk.tree)
      ensures result.Done? ==> Invariant(before, entries, n + 1)
      ensures files.disk.faults >= old(files.disk.faults)
      ensures result.Done? && policy == Overwrite && !InBin(old(targets)[Parent(p)] + [Last(p)]) ==>
        UsesBin(old(files.disk.tree), files.disk.tree, id)
      ensures files.disk.faults == old(files.disk.faults) && result.Failed? ==>
        policy == Overwrite && InTheWay(old(files.disk.tree), id, old(targets)[Parent(p)] + [Last(p)], archive[p])
    {
      hide Kept, Merging, IsWalk, DirectoryBlocked, FileBlocked, IsArchive, WellFormed, Named, StepsTo, Extends, UsesBin, CanRecycle;
      ghost var start, progress := files.disk.tree, Progress(targets, placed);
      SameBin(start, id);
      EntryFacts(policy, destination, before, files.disk.tree, archive, entries, n, progress);
      var natural := targets[Parent(p)] + [Last(p)];
      var target := natural;
      var status, node := files.disk.Lstat(natural);
      if status == Ok && policy == Skip {
        EntrySkipped(destination, before, files.disk.tree, archive, entries, n, progress);
        return Done;
      }
      if status == Ok {
        if policy == Overwrite && node == Dir {
          return Failed(Error(FileExists, false));
        }
        result, target := Resolve(id, before, entries, n, p, natural);
        if result.Failed? {
          return;
        }
      } else if status != NotExist {
        return Failed(FileError(status));
      }
      ghost var t := files.disk.tree;
      result := PlaceFile(id, before, entries, n, p, target);
      if policy == Overwrite && result.Done? && !InBin(natural) { UsesBinTwice(start, t, files.disk.tree, id); }
    }

    method TakeEntry(id: Name, ghost before: Tree, ghost entries: seq<Path>, ghost n: nat, p: Path) returns (result: Outcome)
      requires n < |entries| && Invariant(before, entries, n) && p == entries[n] && p != [] && p in archive
      modifies this, files.disk`tree, files.disk`faults
      ensures Ready() && Kept(policy, before, files.disk.tree)
      ensures result.Done? ==> Invariant(before, entries, n + 1)
      ensures files.disk.faults >= old(files.disk.faults)
      ensures result.Done? && policy == Overwrite && !InBin(destination + p) ==> UsesBin(old(files.disk.tree), files.disk.tree, id)
      ensures files.disk.faults == old(files.disk.faults) && result.Failed? ==>
        policy == Overwrite && InTheWay(old(files.disk.tree), id, destination + p, archive[p])
    {
      hide Kept, IsWalk, DirectoryBlocked, FileBlocked, Merging, UsesBin, InTheWay;
      SameBin(files.disk.tree, id);
      ParentTarget(policy, destination, before, files.disk.tree, archive, entries, n, Progress(targets, placed));
      if Parent(p) !in targets {
        // filepath.SkipDir kept the walk out of this directory
        SkippedBelow(before, destination, p);
        EntrySkipped(destination, before, files.disk.tree, archive, entries, n, Progress(targets, placed));
        MergingKeeps(policy, destination, before, files.disk.tree, archive, entries, n, Progress(targets, placed));
        return Done;
      }
      if policy == Overwrite {
        NaturalPath(policy, destination, before, files.disk.tree, archive, entries, n, Progress(targets, placed), p);
      }
      if archive[p] == Dir {
        result := TakeDirectory(id, before, entries, n, p);
      } else {
        result := TakeFile(id, before, entries, n, p);
      }
    }

    /** publishExtracted. Whether it succeeds or stops half way, nothing that was there is lost. If no
        call fails it goes through, but for an overwriting one that meets a directory where a file is to
        go, or a symbolic link. */
    method PublishExtracted(ids: seq<Name>, entries: seq<Path>) returns (result: Outcome)
      requires Ready() && IsWalk(entries, archive) && |ids| == |entries|
      requires targets == map[[] := destination] && placed == map[]
      requires destination in files.disk.tree && files.disk.tree[destination] == Dir
      modifies this, files.disk`tree, files.disk`faults
      ensures Ready() && Kept(policy, old(files.disk.tree), files.disk.tree)
      ensures result.Done? ==> Merged(policy, destination, old(files.disk.tree), files.disk.tree, archive, Progress(targets, placed))
      ensures files.disk.faults >= old(files.disk.faults)
      ensures files.disk.faults == old(files.disk.faults) && result.Failed? ==> policy == Overwrite
      ensures files.disk.faults == old(files.disk.faults) && result.Failed? && BinReady(old(files.disk.tree), destination, archive, ids) ==>
        Obstructed(old(files.disk.tree), destination, archive)
    {
      hide Kept, DirectoryBlocked, FileBlocked, Merging, Merged, IsWalk, InTheWay, BinUsable, UsesBin, Obstructed;
      ghost var before := files.disk.tree;
      WalkStarts(policy, destination, before, archive, entries);
      for n := 0 to |entries|
        invariant Invariant(before, entries, n) && Kept(policy, before, files.disk.tree)
        invariant files.disk.faults >= old(files.disk.faults)
        invariant policy == Overwrite && BinReady(before, destination, archive, ids) ==> BinUsable(files.disk.tree, ids, n)
      {
        EntryOfWalk(entries, archive, n);
        ghost var t, progress := files.disk.tree, Progress(targets, placed);
        result := TakeEntry(ids[n], before, entries, n, entries[n]);
        if result.Failed? {
          if files.disk.faults == old(files.disk.faults) && BinReady(before, destination, archive, ids) {
            ObstructedBy(destination, before, t, archive, entries, n, progress, ids);
          }
          return;
        }
        if policy == Overwrite && BinReady(before, destination, archive, ids) { StillUsable(t, files.disk.tree, ids, n); }
      }
      WalkEnds(policy, destination, before, files.disk.tree, archive, entries, Progress(targets, placed));
      result := Done;
    }
  }

  /** The result of a merge that went through. */
  ghost predicate Merged(policy: ConflictPolicy, destination: Path, before: Tree, tree: Tree, archive: Tree, progress: Progress) {
    && InPlace(archive, progress.placed, tree) && Made(progress, archive, tree) && Follows(policy, progress, tree)
    && progress.targets[[]] == destination
    && (policy != Rename ==> SamePaths(destination, progress))
    && (forall r :: r in archive && archive[r].File? ==>
         (r in progress.placed <==> policy != Skip || !FileBlocked(before, destination, r)))
    && (forall d :: d in archive && archive[d] == Dir ==>
         (d in progress.targets <==> policy != Skip || !DirectoryBlocked(before, destination, d)))
    && NothingElse(policy, before, tree, progress)
  }

  lemma EntryOfWalk(entries: seq<Path>, archive: Tree, n: nat)
    requires n < |entries| && IsWalk(entries, archive)
    ensures entries[n] != [] && entries[n] in archive
  {
  }

  lemma SkippedBelow(before: Tree, destination: Path, p: Path)
    requires p != []
    ensures DirectoryBlocked(before, destination, Parent(p)) ==>
      DirectoryBlocked(before, destination, p) && FileBlocked(before, destination, p)
  {
  }

  lemma WalkStarts(policy: ConflictPolicy, destination: Path, before: Tree, archive: Tree, entries: seq<Path>)
    requires IsArchive(archive) && destination in before && before[destination] == Dir
    ensures Merging(policy, destination, before, before, archive, entries, 0, Progress(map[[] := destination], map[]))
  {
    assert entries[..0] == [];
    assert destination + [] == destination;
  }

  lemma WalkEnds(policy: ConflictPolicy, destination: Path, before: Tree, tree: Tree, archive: Tree, entries: seq<Path>,
                 progress: Progress)
    requires IsWalk(entries, archive) && IsArchive(archive)
    requires Merging(policy, destination, before, tree, archive, entries, |entries|, progress)
    ensures Merged(policy, destination, before, tree, archive, progress)
  {
    hide InPlace, Follows, Kept, Made, SamePaths, FileBlocked, DirectoryBlocked, IsWalk, Complete, SkipExact, NothingElse;
    RootInTargets(policy, progress, tree);
    forall p | p in archive && p != [] ensures Settled(policy, destination, before, archive, progress, p) {
      EntrySettled(policy, destination, before, tree, archive, entries, progress, p);
    }
    RootIsFree(before, destination);
  }

  lemma RootIsFree(before: Tree, destination: Path)
    ensures !DirectoryBlocked(before, destination, [])
  {
  }

  ghost predicate Settled(policy: ConflictPolicy, destination: Path, before: Tree, archive: Tree, progress: Progress, p: Path)
    requires p in archive
  {
    && (archive[p].File? ==> (p in progress.placed <==> policy != Skip || !FileBlocked(before, destination, p)))
    && (archive[p] == Dir ==> (p in progress.targets <==> policy != Skip || !DirectoryBlocked(before, destination, p)))
  }

  lemma EntrySettled(policy: ConflictPolicy, destination: Path, before: Tree, tree: Tree, archive: Tree, entries: seq<Path>,
                     progress: Progress, p: Path)
    requires IsWalk(entries, archive) && Complete(policy, archive, entries, |entries|, progress)
    requires policy == Skip ==> SkipExact(destination, before, tree, archive, entries, |entries|, progress)
    requires p in archive && p != []
    ensures Settled(policy, destination, before, archive, progress, p)
  {
    hide FileBlocked, DirectoryBlocked;
    assert p in entries && entries[..|entries|] == entries;
  }

  lemma RootInTargets(policy: ConflictPolicy, progress: Progress, tree: Tree)
    requires Follows(policy, progress, tree)
    ensures [] in progress.targets
  {
  }

  /** What the walk knows at an entry whose directory has its target. */
  lemma EntryFacts(policy: ConflictPolicy, destination: Path, before: Tree, tree: Tree, archive: Tree, entries: seq<Path>, n: nat,
                   progress: Progress)
    requires n < |entries| && IsWalk(entries, archive) && IsArchive(archive)
    requires Merging(policy, destination, before, tree, archive, entries, n, progress)
    requires entries[n] != [] && Parent(entries[n]) in progress.targets
    ensures Kept(policy, before, tree)
    ensures var natural := progress.targets[Parent(entries[n])] + [Last(entries[n])];
      && Named(policy, progress.targets[Parent(entries[n])], Last(entries[n]), natural, tree)
      && (policy == Skip ==>
           (DirectoryBlocked(before, destination, entries[n]) <==> natural in tree && tree[natural] != Dir)
           && (FileBlocked(before, destination, entries[n]) <==> natural in tree))
  {
    if policy == Skip {
      TakenBefore(destination, before, tree, archive, entries, n, progress);
      ParentTarget(policy, destination, before, tree, archive, entries, n, progress);
      PathIsParentAndLast(destination, entries[n]);
    }
  }

  lemma TargetIsDirectory(policy: ConflictPolicy, destination: Path, before: Tree, tree: Tree, archive: Tree, entries: seq<Path>, n: nat,
                          progress: Progress, d: Path)
    requires n < |entries| && Merging(policy, destination, before, tree, archive, entries, n, progress) && d in progress.targets
    ensures progress.targets[d] in tree && tree[progress.targets[d]] == Dir
  {
  }

  lemma NaturalPath(policy: ConflictPolicy, destination: Path, before: Tree, tree: Tree, archive: Tree, entries: seq<Path>, n: nat,
                    progress: Progress, p: Path)
    requires n < |entries| && Merging(policy, destination, before, tree, archive, entries, n, progress)
    requires policy == Overwrite && p != [] && Parent(p) in progress.targets
    ensures progress.targets[Parent(p)] + [Last(p)] == destination + p
  {
    PathIsParentAndLast(destination, p);
  }

  lemma MergingKeeps(policy: ConflictPolicy, destination: Path, before: Tree, tree: Tree, archive: Tree,
                     entries: seq<Path>, n: nat, progress: Progress)
    requires n <= |entries| && Merging(policy, destination, before, tree, archive, entries, n, progress)
    ensures Kept(policy, before, tree)
  {
  }
}
