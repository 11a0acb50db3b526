/** Deploying an image into an instance directory: build a new tree beside it, then swap.
    and the same exchange when an instance is synced back. daemon/internal/deployment/files.go:20-443 */
module DeployFiles {
  import opened DeploySwap
  import opened FileTree
  import opened Options
  import Properties
  import Recycle

  const PROPERTIES: Name := "server.properties"

  datatype Exclude = Exclude(path: Path, directory: bool)

  // ----- what is skipped

  predicate IsExcluded(rel: Path, entries: seq<Exclude>) {
    exists i :: 0 <= i < |entries| && (rel == entries[i].path || (entries[i].directory && entries[i].path <= rel))
  }

  predicate Skips(rel: Path, entries: seq<Exclude>) {
    IsRecycleBinPath(rel) || IsExcluded(rel, entries)
  }

  /** The walk reaches a path whose directories were not skipped, and does not skip it. */
  predicate Walked(rel: Path, entries: seq<Exclude>)
    decreases |rel|
  {
    rel == [] || (!Skips(rel, entries) && Walked(Parent(rel), entries))
  }

  predicate Covered(rel: Path, entries: seq<Exclude>) {
    exists i :: 0 <= i < |entries| && entries[i].path <= rel
  }

  predicate ValidExcludes(entries: seq<Exclude>) {
    forall i :: 0 <= i < |entries| ==> entries[i].path != []
  }

  /** Whatever its kind, an exclude keeps the walk away from its path and everything below. */
  lemma {:induction false} WalkedIff(rel: Path, entries: seq<Exclude>)
    requires ValidExcludes(entries)
    ensures Walked(rel, entries) <==> !IsRecycleBinPath(rel) && !Covered(rel, entries)
    decreases |rel|
  {
    if rel != [] {
      WalkedIff(Parent(rel), entries);
      PrefixOfParent(Recycle.BIN, rel);
      forall i | 0 <= i < |entries|
        ensures entries[i].path <= rel <==> entries[i].path == rel || entries[i].path <= Parent(rel)
      {
        PrefixOfParent(entries[i].path, rel);
      }
      CoveredParent(rel, entries);
    }
  }

  lemma CoveredParent(rel: Path, entries: seq<Exclude>)
    requires rel != []
    requires forall i :: 0 <= i < |entries| ==>
      (entries[i].path <= rel <==> entries[i].path == rel || entries[i].path <= Parent(rel))
    ensures Covered(rel, entries) <==> (exists i :: 0 <= i < |entries| && entries[i].path == rel) || Covered(Parent(rel), entries)
    ensures IsExcluded(rel, entries) ==> Covered(rel, entries)
    ensures (exists i :: 0 <= i < |entries| && entries[i].path == rel) ==> IsExcluded(rel, entries)
  {
    if Covered(rel, entries) {
      var i :| 0 <= i < |entries| && entries[i].path <= rel;
      assert entries[i].path == rel || entries[i].path <= Parent(rel);
    }
    if Covered(Parent(rel), entries) {
      var i :| 0 <= i < |entries| && entries[i].path <= Parent(rel);
      assert entries[i].path <= rel;
    }
  }

  // ----- copying

  /** A copy is a file of its own with the same bytes. */
  predicate SameItem(a: Node, b: Node) {
    (a == Dir && b == Dir) || (a.File? && b.File? && a.data == b.data)
  }

  ghost predicate OnlyBelow(t: Tree, u: Tree, root: Path) {
    forall p :: !(root <= p) ==> (p in t <==> p in u) && (p in t ==> u[p] == t[p])
  }

  /** Which entries a copy takes: those the walk reaches, or all. */
  predicate Selected(rel: Path, all: bool, exclude: seq<Exclude>) {
    all || Walked(rel, exclude)
  }

  /** u is t with the entries selected among some of source copied to dest. */
  ghost predicate Copied(t: Tree, u: Tree, source: Path, dest: Path, all: bool, exclude: seq<Exclude>, done: seq<Path>) {
    && OnlyBelow(t, u, dest)
    && (forall rel :: dest + rel in u <==> dest + rel in t || (rel in done && Selected(rel, all, exclude)))
    && (forall rel :: rel in done && Selected(rel, all, exclude) ==> source + rel in t && SameItem(u[dest + rel], t[source + rel]))
    && (forall rel :: dest + rel in t && !(rel in done && Selected(rel, all, exclude)) ==> u[dest + rel] == t[dest + rel])
  }

  /** What one entry needs to be copied, if no call fails: only directories and files are, and a
      directory alone may be there already. */
  predicate CanCopyOne(t: Tree, source: Path, dest: Path)
    requires source in t
  {
    if t[source] == Dir then dest in t ==> t[dest] == Dir else t[source].File? && dest !in t
  }

  ghost predicate CanCopy(t: Tree, source: Path, dest: Path, all: bool, exclude: seq<Exclude>) {
    forall rel :: rel != [] && source + rel in t && Selected(rel, all, exclude) ==> CanCopyOne(t, source + rel, dest + rel)
  }

  ghost predicate CanCopyFirst(t: Tree, source: Path, dest: Path, all: bool, exclude: seq<Exclude>, entries: seq<Path>, n: nat)
    requires n <= |entries|
  {
    forall i :: 0 <= i < n && Selected(entries[i], all, exclude) ==>
      source + entries[i] in t && CanCopyOne(t, source + entries[i], dest + entries[i])
  }

  /** The order of filepath.WalkDir below source. */
  ghost predicate IsWalk(entries: seq<Path>, t: Tree, source: Path) {
    && (forall i :: 0 <= i < |entries| ==> entries[i] != [] && source + entries[i] in t)
    && (forall rel :: rel != [] && source + rel in t ==> rel in entries)
    && (forall i, j :: 0 <= i < j < |entries| ==> entries[i] != entries[j])
    && (forall i :: 0 <= i < |entries| && Parent(entries[i]) != [] ==> Parent(entries[i]) in entries[..i])
  }

  lemma Below(root: Path, p: Path)
    requires root <= p
    ensures root + p[|root|..] == p
  {
  }

  lemma AddInjective(root: Path, a: Path, b: Path)
    ensures root + a == root + b ==> a == b
  {
    assert (root + a)[|root|..] == a && (root + b)[|root|..] == b;
  }

  lemma Shortest(s: set<Path>) returns (p: Path)
    requires s != {}
    ensures p in s && forall q :: q in s ==> |p| <= |q|
    decreases |s|
  {
    p :| p in s;
    if s - {p} != {} {
      var r := Shortest(s - {p});
      if |r| < |p| { p := r; }
    }
  }

  /** Every prefix of rel is a directory under root, and nothing else is new. */
  ghost predicate DirsMade(t: Tree, u: Tree, root: Path, rel: Path) {
    && (forall q :: q <= rel ==> root + q in u && u[root + q] == Dir)
    && (forall p :: p in t ==> p in u && u[p] == t[p])
    && (forall p :: p in u && p !in t ==> root <= p && p[|root|..] <= rel)
  }

  /** Nothing but directories on the way from root to root + rel, as far as anything is there. */
  ghost predicate OnlyDirsUp(t: Tree, root: Path, rel: Path) {
    forall q :: q <= rel && root + q in t ==> t[root + q] == Dir
  }

  lemma DirsWereUp(t: Tree, u: Tree, root: Path, rel: Path)
    requires DirsMade(t, u, root, rel)
    ensures OnlyDirsUp(t, root, rel)
  {
  }

  lemma NotOnlyDirs(t: Tree, u: Tree, root: Path, rel: Path, i: nat)
    requires i < |rel| && DirsMade(t, u, root, rel[..i]) && root + rel[..i + 1] in u && u[root + rel[..i + 1]] != Dir
    ensures !OnlyDirsUp(t, root, rel)
  {
    var current := root + rel[..i + 1];
    assert current[|root|..] == rel[..i + 1];
    assert current in t;
  }

  lemma DirsOneMore(t: Tree, u: Tree, v: Tree, root: Path, rel: Path, i: nat)
    requires i < |rel| && DirsMade(t, u, root, rel[..i])
    requires var current := root + rel[..i + 1];
      if current in u then u[current] == Dir && v == u else v == u[current := Dir]
    ensures DirsMade(t, v, root, rel[..i + 1])
  {
    var more := rel[..i + 1];
    assert Parent(more) == rel[..i];
    forall q | q <= more ensures root + q in v && v[root + q] == Dir {
      PrefixOfParent(q, more);
    }
    forall p | p in v && p !in t ensures root <= p && p[|root|..] <= more {
      if p in u {
        PrefixOfParent(p[|root|..], more);
      } else {
        assert p[|root|..] == more;
      }
    }
  }

  function StrictlyBelow(t: Tree, source: Path): set<Path> {
    set p | p in t && source <= p && p != source
  }

  /** A walk under way: what it has given out, and what is still to come. */
  ghost predicate Walking(entries: seq<Path>, todo: set<Path>, t: Tree, source: Path) {
    && (forall p :: p in todo ==> p in t && source <= p && p != source)
    && (forall i :: 0 <= i < |entries| ==> entries[i] != [] && source + entries[i] in t && source + entries[i] !in todo)
    && (forall rel :: rel != [] && source + rel in t ==> rel in entries || source + rel in todo)
    && (forall i, j :: 0 <= i < j < |entries| ==> entries[i] != entries[j])
    && (forall i :: 0 <= i < |entries| && Parent(entries[i]) != [] ==> Parent(entries[i]) in entries[..i])
  }

  lemma StartsWithSource(entries: seq<Path>, todo: set<Path>, t: Tree, source: Path, p: Path)
    requires Walking(entries, todo, t, source) && p in todo
    ensures source <= p
  {
  }

  lemma WalkStarts(t: Tree, source: Path)
    ensures Walking([], StrictlyBelow(t, source), t, source)
  {
    forall rel | rel != [] && source + rel in t ensures source <= source + rel && source + rel != source {
    }
  }

  lemma WalkEnds(entries: seq<Path>, t: Tree, source: Path)
    requires Walking(entries, {}, t, source)
    ensures IsWalk(entries, t, source)
  {
  }

  lemma ParentWasWalked(entries: seq<Path>, todo: set<Path>, t: Tree, source: Path, p: Path)
    requires WellFormed(t) && Walking(entries, todo, t, source) && p in todo && forall q :: q in todo ==> |p| <= |q|
    ensures var rel := p[|source|..]; rel != [] && (Parent(rel) != [] ==> Parent(rel) in entries)
  {
    var rel := p[|source|..];
    Below(source, p);
    if Parent(rel) != [] {
      assert Parent(p) == source + Parent(rel);
      assert |Parent(p)| < |p|;
    }
  }

  lemma ParentsInOrder(entries: seq<Path>, rel: Path)
    requires rel != [] && forall i :: 0 <= i < |entries| ==> entries[i] != []
    requires forall i :: 0 <= i < |entries| && Parent(entries[i]) != [] ==> Parent(entries[i]) in entries[..i]
    requires Parent(rel) != [] ==> Parent(rel) in entries
    ensures var more := entries + [rel];
      forall i :: 0 <= i < |more| && Parent(more[i]) != [] ==> Parent(more[i]) in more[..i]
  {
    var more := entries + [rel];
    forall i | 0 <= i < |more| && Parent(more[i]) != [] ensures Parent(more[i]) in more[..i] {
      assert i < |entries| ==> more[..i] == entries[..i];
      assert i == |entries| ==> more[..i] == entries;
    }
  }

  lemma WalkOneMore(entries: seq<Path>, todo: set<Path>, t: Tree, source: Path, p: Path)
    requires WellFormed(t) && Walking(entries, todo, t, source) && p in todo && forall q :: q in todo ==> |p| <= |q|
    ensures Walking(entries + [p[|source|..]], todo - {p}, t, source)
  {
    hide WellFormed, Parent;
    var rel := p[|source|..];
    Below(source, p);
    ParentWasWalked(entries, todo, t, source, p);
    ParentsInOrder(entries, rel);
    forall i | 0 <= i < |entries| ensures entries[i] != rel && source + entries[i] != p {
      AddInjective(source, entries[i], rel);
    }
  }

  function Text(data: Bytes): string {
    seq(|data|, i requires 0 <= i < |data| => data[i] as char)
  }

  function Encode(text: string): Bytes {
    seq(|text|, i requires 0 <= i < |text| => (text[i] as int % 256) as bv8)
  }

  /** server.properties with the port line; made if it was missing. */
  ghost predicate PortWritten(t: Tree, u: Tree, temp: Path, port: nat) {
    var path := temp + [PROPERTIES];
    && path in u && u[path].File? && u == t[path := u[path]]
    && (path in t ==> t[path].File?)
    && u[path].data == Encode(Properties.Rewritten(Text(if path in t then t[path].data else []), port))
  }

  ghost predicate HasExcludedFile(plan: Plan, t: Tree) {
    exists i :: 0 <= i < |plan.exclude| && HasFileBelow(t, plan.target + plan.exclude[i].path)
  }

  /** All excludes are restored, or none. */
  ghost function RestoredCount(plan: Plan, t: Tree): nat {
    if HasExcludedFile(plan, t) then |plan.exclude| else 0
  }

  predicate HasFileBelow(t: Tree, source: Path) {
    exists p :: p in t && source <= p && t[p].File?
  }

  predicate HasLinkBelow(t: Tree, source: Path) {
    exists p :: p in t && source <= p && t[p] == Symlink
  }

  /** The image, or the instance to sync back, is there and what is taken of it can be copied. */
  ghost predicate Copyable(plan: Plan, t: Tree) {
    && plan.origin in t
    && forall rel :: rel != [] && FromImage(plan, t, rel) ==> t[plan.origin + rel] == Dir || t[plan.origin + rel].File?
  }

  lemma CopyableIff(plan: Plan, t: Tree, started: Tree)
    requires started == t[plan.temp := Dir] && WellFormed(t) && plan.temp !in t && Apart(plan.origin, plan.temp)
    ensures plan.origin in started <==> plan.origin in t
    ensures Copyable(plan, t) ==> plan.origin in t
    ensures plan.origin in t ==>
      (CanCopy(started, plan.origin, plan.temp, false, plan.exclude) <==> Copyable(plan, t))
  {
    hide Walked;
    NothingBelow(t, plan.temp);
    forall rel
      ensures plan.origin + rel in started <==> plan.origin + rel in t
      ensures plan.origin + rel in t ==> started[plan.origin + rel] == t[plan.origin + rel]
      ensures rel != [] ==> plan.temp + rel !in started
    {
      ApartBelow(plan.origin, plan.temp, rel);
      assert plan.temp <= plan.temp + rel;
    }
    assert plan.origin + [] == plan.origin;
  }

  /** An exclude of the kind it was declared as, without symbolic links, or none. */
  ghost predicate MeasurableAt(plan: Plan, t: Tree, i: nat)
    requires i < |plan.exclude|
  {
    var source := plan.target + plan.exclude[i].path;
    source in t ==> (if plan.exclude[i].directory then t[source] == Dir else t[source].File?) && !HasLinkBelow(t, source)
  }

  ghost predicate Measurable(plan: Plan, t: Tree) {
    forall i :: 0 <= i < |plan.exclude| ==> MeasurableAt(plan, t, i)
  }

  /** What a build needs, if no call fails. */
  ghost predicate Buildable(plan: Plan, t: Tree) {
    Copyable(plan, t) && Measurable(plan, t) && NoClash(plan, t) && Plain(plan, t)
  }

  /** The new directory can get its port: server.properties is a file or missing, and name is free. */
  ghost predicate PortWritable(plan: Plan, t: Tree, k: nat, name: Name)
    requires k <= |plan.exclude|
  {
    && (Held(plan, t, k, [PROPERTIES]) ==> Item(plan, t, k, [PROPERTIES]).File?)
    && name != PROPERTIES && !Held(plan, t, k, [name])
  }

  ghost predicate BinMovable(plan: Plan, t: Tree) {
    && (forall i :: 0 <= i < |plan.exclude| ==> !IsRecycleBinPath(plan.exclude[i].path))
    && (plan.target + Recycle.BIN in t ==> t[plan.target + Recycle.BIN] == Dir)
  }

  /** What a deployment needs to go through, if no call fails and it is not cancelled. */
  ghost predicate Deployable(plan: Plan, backup: Path, t: Tree, name: Name) {
    && |plan.target| == 1 && plan.temp !in t && backup !in t
    && Buildable(plan, t) && PortWritable(plan, t, RestoredCount(plan, t), name) && BinMovable(plan, t)
  }

  ghost predicate SyncReady(plan: Plan, backup: Path, t: Tree) {
    && |plan.origin| == 1 && plan.target in t && plan.temp !in t && backup !in t && Copyable(plan, t) && BinMovable(plan, t)
  }

  /** Every path of the old recycle bin is where it was. */
  ghost predicate BinKept(t: Tree, target: Path, u: Tree) {
    target + Recycle.BIN in t ==> forall rel :: IsRecycleBinPath(rel) ==> SamePlace(t, target + rel, u, target + rel)
  }

  lemma NoBinHeld(plan: Plan, t: Tree, k: nat)
    requires k <= |plan.exclude| && ValidExcludes(plan.exclude) && BinMovable(plan, t)
    ensures !Held(plan, t, k, Recycle.BIN)
  {
    hide Walked;
    WalkedIff(Recycle.BIN, plan.exclude);
  }

  /** The built tree with its port can be exchanged for the old directory. */
  lemma BuiltSwaps(plan: Plan, backup: Path, t: Tree, k: nat, built: Tree, u: Tree)
    requires k <= |plan.exclude| && ValidExcludes(plan.exclude) && BinMovable(plan, t) && Built(plan, t, k, built)
    requires WellFormed(u) && OnlyBelow(t, u, plan.temp) && SamePlace(built, plan.temp + Recycle.BIN, u, plan.temp + Recycle.BIN)
    requires Distinct(plan.target, plan.temp, backup) && plan.temp in u && plan.target != []
    requires plan.target in t || |plan.target| == 1
    ensures HasParent(u, plan.target) && (plan.target in u ==> Exchangeable(u, plan.target, plan.temp))
    ensures (plan.target in u <==> plan.target in t) && (backup in u <==> backup in t)
  {
    hide Walked, Held, SameItem;
    NoBinHeld(plan, t, k);
    assert plan.temp + Recycle.BIN !in built;
    OutsideTemp(plan, t, u, []);
    OutsideTemp(plan, t, u, Recycle.BIN);
    assert plan.target + [] == plan.target;
    if |plan.target| == 1 { assert Parent(plan.target) == []; }
  }

  /** The port can be written into the built tree. */
  lemma PortFits(plan: Plan, t: Tree, k: nat, built: Tree, name: Name)
    requires k <= |plan.exclude| && Built(plan, t, k, built) && PortWritable(plan, t, k, name)
    ensures plan.temp + [PROPERTIES] in built ==> built[plan.temp + [PROPERTIES]].File?
    ensures name != PROPERTIES && plan.temp + [name] !in built
  {
    hide Held, Item, OnlyBelow;
  }

  lemma KeepsBin(plan: Plan, t: Tree, k: nat, u: Tree)
    requires k <= |plan.exclude|
    requires forall rel :: rel != [] && rel != [PROPERTIES] ==> DeployedAt(plan, t, k, true, u, rel)
    ensures BinKept(t, plan.target, u)
  {
    hide Held, Item, SameItem, SamePlace;
    BinIsNotProperties();
    forall rel | IsRecycleBinPath(rel) && plan.target + Recycle.BIN in t
      ensures SamePlace(t, plan.target + rel, u, plan.target + rel)
    {
      assert DeployedAt(plan, t, k, true, u, rel);
    }
  }

  lemma DeployedKeepsBin(plan: Plan, t: Tree, k: nat, port: nat, u: Tree)
    requires k <= |plan.exclude| && Deployed(plan, t, k, port, true, u)
    ensures BinKept(t, plan.target, u)
  {
    hide DeployedAt, PortDeployed, BinKept;
    KeepsBin(plan, t, k, u);
  }

  lemma SyncedKeepsBin(plan: Plan, t: Tree, u: Tree)
    requires Synced(plan, t, true, u)
    ensures BinKept(t, plan.target, u)
  {
    hide DeployedAt, BinKept;
    KeepsBin(plan, t, 0, u);
  }

  lemma SameMeasure(plan: Plan, t: Tree, u: Tree)
    requires OnlyBelow(t, u, plan.temp) && Apart(plan.target, plan.temp)
    ensures Measurable(plan, t) <==> Measurable(plan, u)
  {
    forall i | 0 <= i < |plan.exclude| ensures MeasurableAt(plan, t, i) <==> MeasurableAt(plan, u, i) {
      var source := plan.target + plan.exclude[i].path;
      OutsideTemp(plan, t, u, plan.exclude[i].path);
      SameBelow(plan, t, u, source);
    }
  }

  lemma MissingHasNothing(t: Tree, source: Path)
    requires WellFormed(t)
    ensures source !in t ==> !HasLinkBelow(t, source) && !HasFileBelow(t, source)
  {
    forall p | p in t && source <= p ensures source in t {
      AncestorsExist(t, p, source);
    }
  }

  lemma SameExcludedFiles(plan: Plan, t: Tree, u: Tree)
    requires OnlyBelow(t, u, plan.temp) && Apart(plan.target, plan.temp)
    ensures HasExcludedFile(plan, t) <==> HasExcludedFile(plan, u)
  {
    forall i | 0 <= i < |plan.exclude|
      ensures HasFileBelow(t, plan.target + plan.exclude[i].path) <==> HasFileBelow(u, plan.target + plan.exclude[i].path)
    {
      SameBelow(plan, t, u, plan.target + plan.exclude[i].path);
    }
  }

  lemma SameBelow(plan: Plan, t: Tree, u: Tree, source: Path)
    requires OnlyBelow(t, u, plan.temp) && Apart(plan.target, plan.temp) && plan.target <= source
    ensures HasFileBelow(t, source) <==> HasFileBelow(u, source)
    ensures HasLinkBelow(t, source) <==> HasLinkBelow(u, source)
  {
    forall p | p in t || p in u
      ensures source <= p ==> (p in t <==> p in u) && (p in t ==> u[p] == t[p])
    {
      PrefixTransitive(plan.target, source, p);
      PrefixesCompare(plan.target, plan.temp, p);
    }
  }

  class Deployer {
    const disk: Disk
    /** What is copied: the image of a deployment, the instance of a sync back. */
    const origin: Path
    const target: Path
    const temp: Path
    const backup: Path
    const exclude: seq<Exclude>
    const port: nat

    /** The two directories that are made lie under the root, apart from each other and from the two
        that are configured. Those may lie anywhere, even be the same. */
    ghost predicate Laid() {
      && |temp| == 1 && |backup| == 1 && Distinct(target, temp, backup) && temp[0] != Recycle.RECYCLE_BIN
      && Apart(origin, temp) && ValidExcludes(exclude)
    }

    constructor (disk: Disk, origin: Path, target: Path, temp: Path, backup: Path, exclude: seq<Exclude>, port: nat)
      ensures this.disk == disk && this.origin == origin && this.target == target && this.temp == temp && this.backup == backup
      ensures this.exclude == exclude && this.port == port
    {
      this.disk, this.origin, this.target, this.temp, this.backup := disk, origin, target, temp, backup;
      this.exclude, this.port := exclude, port;
    }

    /** One entry of a copy: os.MkdirAll of a directory whose parent is there, or copyFile. */
    method CopyEntry(source: Path, dest: Path) returns (ok: bool)
      requires disk.Valid() && source in disk.tree && dest != [] && Parent(dest) in disk.tree && disk.tree[Parent(dest)] == Dir
      modifies disk
      ensures disk.Valid() && OnlyBelow(old(disk.tree), disk.tree, dest)
      ensures ok ==> dest in disk.tree && disk.tree == old(disk.tree)[dest := disk.tree[dest]] && SameItem(disk.tree[dest], old(disk.tree)[source])
      ensures ok && dest in old(disk.tree) ==> disk.tree[dest] == old(disk.tree)[dest]
      ensures disk.faults >= old(disk.faults)
      ensures disk.faults == old(disk.faults) ==> (ok <==> CanCopyOne(old(disk.tree), source, dest))
    {
      var status, node := disk.Lstat(source);
      if status != Ok {
        return false;
      }
      if node == Dir {
        if dest in disk.tree {
          return disk.tree[dest] == Dir;
        }
        status := disk.Mkdir(dest);
        return status == Ok;
      }
      if !node.File? {
        return false;
      }
      var existed := dest in disk.tree;
      status := disk.CreateFile(dest, node.data);
      if status != Ok {
        if !existed {
          var _ := disk.Remove(dest);
        }
        return false;
      }
      return true;
    }

    /** Copies source into the directory dest; in the walk's order, though the files may be written later. */
    method CopyTree(source: Path, dest: Path, all: bool, entries: seq<Path>) returns (ok: bool)
      requires disk.Valid() && Laid() && IsWalk(entries, disk.tree, source) && Apart(source, dest)
      requires dest in disk.tree && disk.tree[dest] == Dir
      modifies disk
      ensures disk.Valid() && OnlyBelow(old(disk.tree), disk.tree, dest)
      ensures ok ==> Copied(old(disk.tree), disk.tree, source, dest, all, exclude, entries)
      ensures ok ==> dest in disk.tree && disk.tree[dest] == Dir
      ensures disk.faults >= old(disk.faults)
      ensures disk.faults == old(disk.faults) ==> (ok <==> CanCopy(old(disk.tree), source, dest, all, exclude))
    {
      hide Copied, IsWalk, Selected, CanCopy, CanCopyOne, CanCopyFirst, OnlyBelow, SameItem;
      ghost var t := disk.tree;
      NothingCopied(t, source, dest, all, exclude);
      NoneYet(t, source, dest, all, exclude, entries);
      assert entries[..0] == [];
      for n := 0 to |entries|
        invariant disk.Valid() && OnlyBelow(t, disk.tree, dest) && disk.faults >= old(disk.faults)
        invariant Copied(t, disk.tree, source, dest, all, exclude, entries[..n])
        invariant dest in disk.tree && disk.tree[dest] == Dir
        invariant disk.faults == old(disk.faults) ==> CanCopyFirst(t, source, dest, all, exclude, entries, n)
      {
        assert entries[..n + 1] == entries[..n] + [entries[n]];
        var rel := entries[n];
        if Reaches(rel, all) {
          ghost var u := disk.tree;
          CopyOne(t, u, source, dest, all, exclude, entries, n);
          SameChance(t, u, source, dest, all, exclude, entries, n);
          ok := CopyEntry(source + rel, dest + rel);
          OnlyBelowMore(t, u, disk.tree, dest, rel);
          if !ok {
            if disk.faults == old(disk.faults) { CannotCopy(t, source, dest, all, exclude, entries, n); }
            return;
          }
          CopiedOneMore(t, u, disk.tree, source, dest, all, exclude, entries, n);
        } else {
          NotSelected(t, disk.tree, source, dest, all, exclude, entries, n);
        }
        if disk.faults == old(disk.faults) { OneMoreChance(t, source, dest, all, exclude, entries, n); }
      }
      assert entries[..|entries|] == entries;
      if disk.faults == old(disk.faults) { CanCopyAll(t, source, dest, all, exclude, entries); }
      ok := true;
    }

    /** The entries below source, a directory before what is in it. */
    method WalkDir(source: Path) returns (entries: seq<Path>)
      requires disk.Valid()
      ensures IsWalk(entries, disk.tree, source)
    {
      hide Walking, IsWalk;
      entries := [];
      var todo := StrictlyBelow(disk.tree, source);
      WalkStarts(disk.tree, source);
      while todo != {}
        invariant Walking(entries, todo, disk.tree, source)
      {
        ghost var shortest := Shortest(todo);
        var p :| p in todo && forall q :: q in todo ==> |p| <= |q|;
        StartsWithSource(entries, todo, disk.tree, source, p);
        WalkOneMore(entries, todo, disk.tree, source, p);
        entries := entries + [p[|source|..]];
        todo := todo - {p};
      }
      WalkEnds(entries, disk.tree, source);
    }

    /** os.MkdirAll of a path under a directory that is there. */
    method MkdirAll(root: Path, rel: Path) returns (ok: bool)
      requires disk.Valid() && root in disk.tree && disk.tree[root] == Dir
      modifies disk`tree, disk`faults
      ensures disk.Valid() && OnlyBelow(old(disk.tree), disk.tree, root)
      ensures ok ==> DirsMade(old(disk.tree), disk.tree, root, rel)
      ensures disk.faults >= old(disk.faults)
      ensures disk.faults == old(disk.faults) ==> (ok <==> OnlyDirsUp(old(disk.tree), root, rel))
    {
      ghost var t := disk.tree;
      assert rel[..0] == [] && root + [] == root;
      for i := 0 to |rel|
        invariant disk.Valid() && OnlyBelow(t, disk.tree, root) && DirsMade(t, disk.tree, root, rel[..i])
        invariant disk.faults >= old(disk.faults)
      {
        var current := root + rel[..i + 1];
        assert Parent(current) == root + rel[..i];
        ghost var u := disk.tree;
        assert rel[..i] <= rel[..i];
        if current in disk.tree {
          if disk.tree[current] != Dir {
            NotOnlyDirs(t, disk.tree, root, rel, i);
            return false;
          }
        } else {
          var status := disk.Mkdir(current);
          if status != Ok {
            return false;
          }
        }
        DirsOneMore(t, u, disk.tree, root, rel, i);
      }
      assert rel[..|rel|] == rel;
      DirsWereUp(t, disk.tree, root, rel);
      ok := true;
    }

    ghost function ThePlan(): Plan {
      Plan(origin, target, temp, exclude)
    }

    /** One pass of the loop of restoreExcluded. */
    method RestoreExclude(k: nat, ghost t: Tree) returns (ok: bool)
      requires disk.Valid() && Laid() && WellFormed(t) && k < |exclude| && Built(ThePlan(), t, k, disk.tree)
      modifies disk
      ensures disk.Valid() && OnlyBelow(t, disk.tree, temp)
      ensures ok ==> Built(ThePlan(), t, k + 1, disk.tree)
      ensures disk.faults >= old(disk.faults)
      ensures disk.faults == old(disk.faults) && NoClash(ThePlan(), t) && Plain(ThePlan(), t) && MeasurableAt(ThePlan(), t, k) ==> ok
    {
      hide Built, Copied, IsWalk, RestoredOne, DirsMade, Walked, NoClash, Plain;
      ghost var u := disk.tree;
      var e := exclude[k].path;
      BuiltFacts(ThePlan(), t, k, u);
      OutsideTemp(ThePlan(), t, u, e);
      var status, node := disk.Lstat(target + e);
      if status == NotExist {
        ExcludeMissing(ThePlan(), t, k, u);
        return true;
      }
      if status != Ok || (if exclude[k].directory then node != Dir else !node.File?) {
        return false;
      }
      if node == Dir {
        ok := RestoreDirectory(k, t);
      } else {
        ok := RestoreFile(k, t);
      }
    }

    method RestoreDirectory(k: nat, ghost t: Tree) returns (ok: bool)
      requires disk.Valid() && Laid() && WellFormed(t) && k < |exclude| && Built(ThePlan(), t, k, disk.tree)
      requires target + exclude[k].path in t && t[target + exclude[k].path] == Dir
      modifies disk
      ensures disk.Valid() && OnlyBelow(t, disk.tree, temp)
      ensures ok ==> Built(ThePlan(), t, k + 1, disk.tree)
      ensures disk.faults >= old(disk.faults)
      ensures disk.faults == old(disk.faults) && NoClash(ThePlan(), t) && Plain(ThePlan(), t) ==> ok
    {
      hide Built, Copied, IsWalk, RestoredOne, Walked, CanCopy, NoClash, Plain, OnlyDirsUp;
      ghost var u := disk.tree;
      var e := exclude[k].path;
      BuiltFacts(ThePlan(), t, k, u);
      if NoClash(ThePlan(), t) { OnlyDirsAbove(ThePlan(), t, k, u, e); }
      ok := MkdirAll(temp, e);
      OnlyBelowAgain(t, u, disk.tree, temp);
      if !ok {
        return;
      }
      ghost var made := disk.tree;
      assert e <= e;
      var entries := WalkDir(target + e);
      SidesDiffer(target, temp, e, e);
      if NoClash(ThePlan(), t) && Plain(ThePlan(), t) { CanRestore(ThePlan(), t, k, u, made); }
      ok := CopyTree(target + e, temp + e, true, entries);
      OnlyBelowMore(t, made, disk.tree, temp, e);
      if ok {
        DirectoryRestored(ThePlan(), t, k, u, made, disk.tree, entries);
        ExcludeRestored(ThePlan(), t, k, u, disk.tree);
      }
    }

    method RestoreFile(k: nat, ghost t: Tree) returns (ok: bool)
      requires disk.Valid() && Laid() && WellFormed(t) && k < |exclude| && Built(ThePlan(), t, k, disk.tree)
      requires target + exclude[k].path in t && t[target + exclude[k].path] != Dir
      modifies disk
      ensures disk.Valid() && OnlyBelow(t, disk.tree, temp)
      ensures ok ==> Built(ThePlan(), t, k + 1, disk.tree)
      ensures disk.faults >= old(disk.faults)
      ensures disk.faults == old(disk.faults) && NoClash(ThePlan(), t) && Plain(ThePlan(), t) ==> ok
    {
      hide Built, Copied, IsWalk, RestoredOne, Walked, CanCopyOne, NoClash, Plain, OnlyDirsUp, SameItem, WellFormed;
      ghost var u := disk.tree;
      var e := exclude[k].path;
      BuiltFacts(ThePlan(), t, k, u);
      OutsideTemp(ThePlan(), t, u, e);
      if NoClash(ThePlan(), t) { OnlyDirsAbove(ThePlan(), t, k, u, Parent(e)); }
      ok := MkdirAll(temp, Parent(e));
      OnlyBelowAgain(t, u, disk.tree, temp);
      if !ok {
        return;
      }
      ghost var made := disk.tree;
      OutsideTemp(ThePlan(), u, made, e);
      assert Parent(temp + e) == temp + Parent(e) && Parent(e) <= Parent(e);
      if NoClash(ThePlan(), t) && Plain(ThePlan(), t) { CanRestoreFile(ThePlan(), t, k, u, made); }
      ok := CopyEntry(target + e, temp + e);
      OnlyBelowMore(t, made, disk.tree, temp, e);
      if ok {
        FileRestored(ThePlan(), t, k, u, made, disk.tree);
        ExcludeRestored(ThePlan(), t, k, u, disk.tree);
      }
    }

    /** Whether the excludes hold any file in the old instance; an error for a wrong kind. */
    method MeasureExcluded() returns (found: Option<bool>)
      requires disk.Valid()
      modifies disk`faults
      ensures found.Some? ==> (found.value <==> HasExcludedFile(ThePlan(), disk.tree))
      ensures disk.faults >= old(disk.faults)
      ensures disk.faults == old(disk.faults) ==> (found.Some? <==> Measurable(ThePlan(), disk.tree))
    {
      hide HasFileBelow, HasLinkBelow, WellFormed, ValidExcludes, Apart, Distinct;
      var any := false;
      for i := 0 to |exclude|
        invariant disk.faults >= old(disk.faults)
        invariant disk.faults == old(disk.faults) ==> forall j :: 0 <= j < i ==> MeasurableAt(ThePlan(), disk.tree, j)
        invariant any <==> exists j :: 0 <= j < i && HasFileBelow(disk.tree, target + exclude[j].path)
      {
        var source := target + exclude[i].path;
        MissingHasNothing(disk.tree, source);
        ghost var measurable := MeasurableAt(ThePlan(), disk.tree, i);
        var status, node := disk.Lstat(source);
        if status != Ok && status != NotExist {
          return None;
        }
        if status == Ok && (if exclude[i].directory then node != Dir else !node.File?) {
          return None;
        }
        if HasLinkBelow(disk.tree, source) {
          return None;
        }
        any := any || HasFileBelow(disk.tree, source);
      }
      return Some(any);
    }

    /** Copies what is not skipped into the new temporary directory. An origin that is no directory
        gives an empty tree. */
    method CopyOrigin(ghost t: Tree) returns (ok: bool)
      requires disk.Valid() && Laid() && WellFormed(t) && temp !in t && disk.tree == t[temp := Dir]
      modifies disk
      ensures disk.Valid() && OnlyBelow(t, disk.tree, temp)
      ensures ok ==> Built(ThePlan(), t, 0, disk.tree)
      ensures disk.faults >= old(disk.faults)
      ensures disk.faults == old(disk.faults) ==> (ok <==> Copyable(ThePlan(), t))
    {
      hide Built, Copied, IsWalk, Walked, CanCopy, Copyable;
      ghost var started := disk.tree;
      CopyableIff(ThePlan(), t, started);
      var status, _ := disk.Lstat(origin);
      if status != Ok {
        return false;
      }
      NothingBelow(t, temp);
      var entries := WalkDir(origin);
      ok := CopyTree(origin, temp, false, entries);
      OnlyBelowAgain(t, started, disk.tree, temp);
      if ok { ImageIsBuilt(ThePlan(), t, started, disk.tree, entries); }
    }

    /** Copies the image into the new temporary directory and restores the excludes, if they hold any
        file. */
    method BuildTree(ghost t: Tree) returns (ok: bool, restored: nat)
      requires disk.Valid() && Laid() && WellFormed(t) && temp !in t && disk.tree == t[temp := Dir]
      modifies disk
      ensures disk.Valid() && OnlyBelow(t, disk.tree, temp) && restored <= |exclude|
      ensures ok ==> restored == RestoredCount(ThePlan(), t)
      ensures ok ==> Built(ThePlan(), t, restored, disk.tree)
      ensures disk.faults >= old(disk.faults)
      ensures disk.faults == old(disk.faults) && Buildable(ThePlan(), t) ==> ok
      ensures disk.faults == old(disk.faults) && ok ==> Copyable(ThePlan(), t) && Measurable(ThePlan(), t)
    {
      hide Built, Walked, HasExcludedFile, Copyable, Measurable, MeasurableAt, NoClash, Plain, OnlyBelow, WellFormed, ValidExcludes;
      restored := 0;
      ok := CopyOrigin(t);
      if !ok {
        return;
      }
      SameMeasure(ThePlan(), t, disk.tree);
      var found := MeasureExcluded();
      if found.None? {
        return false, 0;
      }
      ghost var measured := disk.faults;
      SameExcludedFiles(ThePlan(), t, disk.tree);
      if found.value {
        while restored < |exclude|
          invariant restored <= |exclude| && disk.Valid() && OnlyBelow(t, disk.tree, temp) && disk.faults >= measured
          invariant Built(ThePlan(), t, restored, disk.tree)
        {
          if Measurable(ThePlan(), t) { MeasuredAt(ThePlan(), t, restored); }
          ok := RestoreExclude(restored, t);
          if !ok {
            return;
          }
          restored := restored + 1;
        }
      }
      ok := true;
    }

    /** supervisor.WriteServerPort in the temporary directory. */
    method WritePort(name: Name) returns (ok: bool)
      requires disk.Valid() && Laid() && temp in disk.tree && disk.tree[temp] == Dir
      modifies disk
      ensures disk.Valid() && OnlyBelow(old(disk.tree), disk.tree, temp)
      ensures ok ==> PortWritten(old(disk.tree), disk.tree, temp, port)
      ensures disk.faults >= old(disk.faults)
      ensures disk.faults == old(disk.faults) ==> (ok <==>
        && (temp + [PROPERTIES] in old(disk.tree) ==> old(disk.tree)[temp + [PROPERTIES]].File?)
        && name != PROPERTIES && temp + [name] !in old(disk.tree))
    {
      hide Text, Encode, Properties.Rewritten, Moved, WellFormed, ValidExcludes;
      var path := temp + [PROPERTIES];
      var status, data := disk.Read(path);
      if status == NotExist && path !in disk.tree {
        data := [];
      } else if status != Ok {
        return false;
      }
      var contents := Text(data);
      var output := Properties.WriteServerPort(contents, port);
      var scratch := temp + [name];
      if name == PROPERTIES || scratch in disk.tree {
        return false;
      }
      assert Parent(path) == temp && Parent(scratch) == temp;
      assert scratch[|temp|] == name && path[|temp|] == PROPERTIES;
      ok := PutFile(scratch, path, Encode(output));
    }

    /** Writes a file in the temporary directory under a scratch name and renames it into place. */
    method PutFile(scratch: Path, path: Path, data: Bytes) returns (ok: bool)
      requires disk.Valid() && Laid() && temp in disk.tree && disk.tree[temp] == Dir
      requires path != [] && scratch != [] && Parent(path) == temp && Parent(scratch) == temp && scratch != path
      requires scratch !in disk.tree
      modifies disk
      ensures disk.Valid() && OnlyBelow(old(disk.tree), disk.tree, temp)
      ensures ok ==> path in disk.tree && disk.tree[path].File? && disk.tree[path].data == data
      ensures ok ==> disk.tree == old(disk.tree)[path := disk.tree[path]] && (path in old(disk.tree) ==> old(disk.tree)[path] != Dir)
      ensures disk.faults >= old(disk.faults)
      ensures disk.faults == old(disk.faults) ==> (ok <==> (path in old(disk.tree) ==> old(disk.tree)[path] != Dir))
    {
      hide Moved, WellFormed, ValidExcludes;
      ghost var t := disk.tree;
      var status := disk.CreateFile(scratch, data);
      ghost var created := disk.tree;
      if status == Ok {
        status := disk.Rename(scratch, path);
      }
      if status != Ok {
        return false;
      }
      Recycle.FileIntoPlace(t, scratch, path, created[scratch]);
      return true;
    }

    // ----- the swap

    /** The new directory is made and the backup's name is free. */
    ghost predicate Fresh(t: Tree) {
      temp in t && t[temp] == Dir && backup !in t
    }

    ghost predicate CanSwap(t: Tree) {
      target != [] && HasParent(t, target) && (target in t ==> Exchangeable(t, target, temp))
    }

    /** pathExists: any error counts as absence. */
    method PathExists(p: Path) returns (exists_: bool)
      modifies disk`faults
      ensures exists_ ==> p in disk.tree
      ensures disk.faults >= old(disk.faults)
      ensures disk.faults == old(disk.faults) ==> (exists_ <==> p in disk.tree)
    {
      var status, _ := disk.Lstat(p);
      exists_ := status == Ok;
    }

    /** Moves the recycle bin of the old directory into the new one. */
    method PreserveRecycleBin() returns (ok: bool, seen: bool)
      requires disk.Valid() && Laid()
      modifies disk`tree, disk`faults
      ensures disk.Valid()
      ensures ok ==> BinMoved(old(disk.tree), disk.tree, backup, temp, seen)
      ensures !ok ==> disk.tree == old(disk.tree)
      ensures disk.faults >= old(disk.faults)
      ensures disk.faults == old(disk.faults) ==> (seen <==> backup in old(disk.tree))
      ensures disk.faults == old(disk.faults) && temp in old(disk.tree) && old(disk.tree)[temp] == Dir ==> (ok <==>
        backup + Recycle.BIN in old(disk.tree) ==> old(disk.tree)[backup + Recycle.BIN] == Dir && temp + Recycle.BIN !in old(disk.tree))
    {
      if backup + Recycle.BIN in disk.tree { AncestorsExist(disk.tree, backup + Recycle.BIN, backup); }
      seen := PathExists(backup);
      if !seen {
        return true, seen;
      }
      var source, dest := backup + Recycle.BIN, temp + Recycle.BIN;
      assert Parent(dest) == temp;
      SidesDiffer(backup, temp, Recycle.BIN, Recycle.BIN);
      var status, node := disk.Lstat(source);
      if status == NotExist {
        return true, seen;
      }
      if status != Ok || node != Dir {
        return false, seen;
      }
      var taken := PathExists(dest);
      if taken {
        return false, seen;
      }
      status := disk.Rename(source, dest);
      ok := status == Ok;
    }

    /** Puts the built tree in the place of the old one, which goes to the backup. */
    method SwapWithOld() returns (live: bool, seen: bool, stranded: bool)
      requires disk.Valid() && Laid()
      modifies disk`tree, disk`faults
      ensures disk.Valid() && Elsewhere(old(disk.tree), disk.tree, target, temp, backup)
      ensures live ==> Swapped(old(disk.tree), target, temp, disk.tree, seen) && temp !in disk.tree
      ensures !live ==> Survives(old(disk.tree), target, backup, disk.tree, !stranded)
      ensures !live && stranded ==> NoBin(disk.tree, target) && NoBin(disk.tree, backup)
      ensures disk.faults >= old(disk.faults)
      ensures disk.faults == old(disk.faults) && live ==> seen
      ensures disk.faults == old(disk.faults) && Fresh(old(disk.tree)) ==> (live <==> Exchangeable(old(disk.tree), target, temp))
      ensures !live && Fresh(old(disk.tree)) ==>
        || disk.faults > old(disk.faults) + (if Exchangeable(old(disk.tree), target, temp) then 1 else 0)
        || SameDirectory(old(disk.tree), target, disk.tree, target, !stranded)
    {
      hide Moved, Swapped, Survives, BinMoved, Elsewhere, SameDirectory;
      ghost var t := disk.tree;
      SameItself(t, target);
      live, seen, stranded := false, false, false;
      var status := disk.Rename(target, backup);
      if status != Ok {
        Unmoved(t, target, temp, backup);
        return;
      }
      ghost var away := disk.tree;
      AwayFacts(t, away, target, temp, backup);
      RenameIsElsewhere(t, target, backup, target, temp, backup);
      var preserved;
      preserved, seen := PreserveRecycleBin();
      ghost var moved := disk.tree;
      if !preserved {
        var _ := disk.Rename(backup, target);
        SameItself(away, backup);
        RollBack(t, away, moved, disk.tree, target, temp, backup, true);
        RolledBackElsewhere(t, moved, disk.tree, target, temp, backup);
        return;
      }
      BinMoveFacts(away, moved, target, temp, backup, seen);
      BinMoveIsElsewhere(away, moved, target, temp, backup, seen);
      ElsewhereTwice(t, away, moved, target, temp, backup);
      status := disk.Rename(temp, target);
      if status != Ok {
        stranded := seen;
        var _ := disk.Rename(backup, target);
        RolledBackElsewhere(t, moved, disk.tree, target, temp, backup);
        BinStays(away, moved, backup, temp, seen);
        RollBack(t, away, moved, disk.tree, target, temp, backup, !stranded);
        if stranded { BinIsGone(t, away, moved, disk.tree, target, temp, backup); }
        return;
      }
      live := true;
      SwapSucceeds(t, away, moved, disk.tree, target, temp, backup, seen);
      RenameIsElsewhere(moved, temp, target, target, temp, backup);
      ElsewhereTwice(t, moved, disk.tree, target, temp, backup);
      MovedLookup(moved, temp, target, temp);
    }

    /** The exchange, with an old directory or without. */
    method Swap() returns (had: bool, live: bool, seen: bool, stranded: bool)
      requires disk.Valid() && Laid() && temp in disk.tree && disk.tree[temp] == Dir
      modifies disk`tree, disk`faults
      ensures disk.Valid() && Elsewhere(old(disk.tree), disk.tree, target, temp, backup)
      ensures live ==> Swapped(old(disk.tree), target, temp, disk.tree, seen) && temp !in disk.tree
      ensures !live ==> Survives(old(disk.tree), target, backup, disk.tree, !stranded)
      ensures !live && stranded ==> NoBin(disk.tree, target) && NoBin(disk.tree, backup)
      ensures live && target in old(disk.tree) ==> had
      ensures disk.faults >= old(disk.faults)
      ensures disk.faults == old(disk.faults) && live && target in old(disk.tree) ==> seen
      ensures disk.faults == old(disk.faults) && Fresh(old(disk.tree)) ==> (live <==> CanSwap(old(disk.tree)))
      ensures !live && Fresh(old(disk.tree)) ==>
        || disk.faults > old(disk.faults) + (if CanSwap(old(disk.tree)) then 1 else 0)
        || SameDirectory(old(disk.tree), target, disk.tree, target, !stranded)
    {
      hide Moved, Swapped, Survives, BinMoved, Elsewhere, SameDirectory;
      ghost var t := disk.tree;
      Unmoved(t, target, temp, backup);
      SameItself(t, target);
      had := PathExists(target);
      if had {
        live, seen, stranded := SwapWithOld();
      } else {
        seen, stranded := false, false;
        var status := disk.Rename(temp, target);
        live := status == Ok;
        if live {
          FreshSwap(t, target, temp, seen);
          RenameIsElsewhere(t, temp, target, target, temp, backup);
          MovedLookup(t, temp, target, temp);
        }
      }
    }

    method RemoveBackup() returns (ok: bool)
      requires disk.Valid() && Laid()
      modifies disk`tree, disk`faults
      ensures disk.Valid() && SameDirectory(old(disk.tree), target, disk.tree, target, true)
      ensures Elsewhere(old(disk.tree), disk.tree, target, temp, backup)
      ensures temp in disk.tree ==> temp in old(disk.tree)
      ensures ok ==> backup !in disk.tree
      ensures disk.faults >= old(disk.faults)
      ensures disk.faults == old(disk.faults) ==> ok
    {
      hide SameDirectory, Elsewhere;
      ghost var t := disk.tree;
      var status := disk.RemoveAll(backup);
      RemovedElsewhere(t, disk.tree, target, temp, backup);
      ok := status == Ok;
    }

    /** The deferred removal of the temporary directory, unless it cannot be seen. */
    method CleanUp() returns (ok: bool)
      requires disk.Valid() && Laid()
      modifies disk`tree, disk`faults
      ensures disk.Valid()
      ensures SameDirectory(old(disk.tree), target, disk.tree, target, true)
      ensures SameDirectory(old(disk.tree), backup, disk.tree, backup, true)
      ensures Elsewhere(old(disk.tree), disk.tree, target, temp, backup)
      ensures temp !in old(disk.tree) ==> disk.tree == old(disk.tree)
      ensures disk.faults >= old(disk.faults)
      ensures disk.faults == old(disk.faults) ==> ok && temp !in disk.tree
    {
      hide SameDirectory, Elsewhere;
      ghost var t := disk.tree;
      ok := true;
      var left := PathExists(temp);
      if left {
        var status := disk.RemoveAll(temp);
        ok := status == Ok;
      }
      RemovedTemp(t, disk.tree, target, temp, backup);
    }

    lemma BackupApart(t: Tree, u: Tree)
      requires Laid() && OnlyBelow(t, u, temp)
      ensures backup in t <==> backup in u
      ensures target in t <==> target in u
    {
      OutsideTemp(ThePlan(), t, u, []);
      assert target + [] == target;
    }

    lemma WrittenSwaps(t: Tree, k: nat, built: Tree, written: Tree)
      requires Laid() && k <= |exclude| && BinMovable(ThePlan(), t) && Built(ThePlan(), t, k, built)
      requires PortWritten(built, written, temp, port) && WellFormed(written) && (target in t || |target| == 1)
      ensures CanSwap(written)
    {
      hide BinMovable, PortWritten, OnlyBelow, Exchangeable, HasParent, SamePlace, Built;
      BinIsNotProperties();
      BuiltFacts(ThePlan(), t, k, built);
      TempIsDirectory(ThePlan(), built, written, port);
      PortElsewhere(ThePlan(), built, written, port, Recycle.BIN);
      OnlyBelowAgain(t, built, written, temp);
      BuiltSwaps(ThePlan(), backup, t, k, built, written);
    }

    /** From the empty temporary directory to the removal of the backup. */
    method Attempt(name: Name, cancelled: bool, ghost t: Tree) returns (ok: bool, live: bool, seen: bool, stranded: bool, restored: nat)
      requires disk.Valid() && Laid() && WellFormed(t) && temp !in t && disk.tree == t[temp := Dir]
      modifies disk
      ensures disk.Valid() && Elsewhere(t, disk.tree, target, temp, backup) && restored <= |exclude|
      ensures live ==> restored == RestoredCount(ThePlan(), t)
      ensures live ==> Deployed(ThePlan(), t, restored, port, seen, disk.tree) && temp !in disk.tree
      ensures !live ==> Survives(t, target, backup, disk.tree, !stranded)
      ensures !live && stranded ==> NoBin(disk.tree, target) && NoBin(disk.tree, backup)
      ensures ok ==> live && (target in t ==> backup !in disk.tree)
      ensures disk.faults >= old(disk.faults)
      ensures disk.faults == old(disk.faults) && live && target in t ==> seen
      ensures cancelled ==> !live
      ensures disk.faults == old(disk.faults) && !cancelled && Deployable(ThePlan(), backup, t, name) ==> ok
      ensures !live ==>
        || backup in t
        || disk.faults > old(disk.faults) + (if !cancelled && Deployable(ThePlan(), backup, t, name) then 1 else 0)
        || SameDirectory(t, target, disk.tree, target, !stranded)
    {
      hide HasExcludedFile, Built, PortWritten, Deployed, Survives, Swapped, Elsewhere, OnlyBelow, NoBin, SameDirectory;
      hide Buildable, PortWritable, BinMovable, CanSwap, Exchangeable, HasParent;
      live, seen, stranded := false, false, false;
      ok, restored := BuildTree(t);
      BelowTemp(ThePlan(), backup, t, disk.tree);
      if !ok {
        return;
      }
      ghost var built := disk.tree;
      BuiltFacts(ThePlan(), t, restored, built);
      if Deployable(ThePlan(), backup, t, name) { PortFits(ThePlan(), t, restored, built, name); }
      ok := WritePort(name);
      ghost var written := disk.tree;
      OnlyBelowAgain(t, built, written, temp);
      BelowTemp(ThePlan(), backup, t, written);
      if !ok || cancelled {
        ok := false;
        return;
      }
      TempIsDirectory(ThePlan(), built, written, port);
      BackupApart(t, written);
      if Deployable(ThePlan(), backup, t, name) { WrittenSwaps(t, restored, built, written); }
      var had;
      had, live, seen, stranded := Swap();
      ghost var swapped := disk.tree;
      ElsewhereTwice(t, written, swapped, target, temp, backup);
      if !live {
        SurvivesLater(t, written, swapped, target, backup, !stranded);
        HomeLater(t, written, swapped, target, !stranded);
        return false, live, seen, stranded, restored;
      }
      if had {
        ok := RemoveBackup();
      } else {
        SameItself(swapped, target);
        Unmoved(swapped, target, temp, backup);
      }
      ElsewhereTwice(t, swapped, disk.tree, target, temp, backup);
      SwapDeploys(ThePlan(), t, restored, built, written, swapped, disk.tree, port, seen);
    }

    /** deployFiles: the checks (an instance must lie under the root), the attempt, and the deferred removal of the temporary directory. */
    method Deploy(name: Name, cancelled: bool) returns (ok: bool, live: bool, seen: bool, stranded: bool, restored: nat)
      requires disk.Valid() && Laid()
      modifies disk
      ensures disk.Valid() && Elsewhere(old(disk.tree), disk.tree, target, temp, backup) && restored <= |exclude|
      ensures live ==> restored == RestoredCount(ThePlan(), old(disk.tree))
      ensures live ==> Deployed(ThePlan(), old(disk.tree), restored, port, seen, disk.tree) && temp !in disk.tree
      ensures !live ==> Survives(old(disk.tree), target, backup, disk.tree, !stranded)
      ensures !live && stranded && temp !in disk.tree ==>
        NoBin(disk.tree, target) && NoBin(disk.tree, backup) && NoBin(disk.tree, temp)
      ensures ok ==> live && (target in old(disk.tree) ==> backup !in disk.tree)
      ensures disk.faults >= old(disk.faults)
      ensures disk.faults == old(disk.faults) && live && target in old(disk.tree) ==> seen && BinKept(old(disk.tree), target, disk.tree)
      ensures cancelled ==> !live
      ensures disk.faults == old(disk.faults) && !cancelled && Deployable(ThePlan(), backup, old(disk.tree), name) ==> ok
      ensures disk.faults == old(disk.faults) && temp !in old(disk.tree) ==> temp !in disk.tree
      ensures !live ==>
        || disk.faults > old(disk.faults) + (if !cancelled && Deployable(ThePlan(), backup, old(disk.tree), name) then 1 else 0)
        || SameDirectory(old(disk.tree), target, disk.tree, target, !stranded)
    {
      hide HasExcludedFile, Deployed, Survives, Elsewhere, NoBin, SameDirectory, BinKept, Buildable, PortWritable, BinMovable;
      ghost var t := disk.tree;
      ok, live, seen, stranded, restored := false, false, false, false, 0;
      Unmoved(t, target, temp, backup);
      SameItself(t, target);
      if |target| != 1 {
        return;
      }
      var tempTaken := PathExists(temp);
      var backupTaken := PathExists(backup);
      if tempTaken || backupTaken {
        return;
      }
      var status := disk.Mkdir(temp);
      if status != Ok {
        return;
      }
      ok, live, seen, stranded, restored := Attempt(name, cancelled, t);
      ghost var attempted := disk.tree;
      var cleaned := CleanUp();
      ok := ok && cleaned;
      ElsewhereTwice(t, attempted, disk.tree, target, temp, backup);
      if !live {
        StillSurvives(t, attempted, disk.tree, target, backup, !stranded);
        StillHome(t, attempted, disk.tree, target, !stranded);
        if stranded { StillNoBin(attempted, disk.tree, target, backup); }
      }
      if live && seen { DeployedKeepsBin(ThePlan(), t, restored, port, disk.tree); }
      if temp !in disk.tree { NoBinWithout(disk.tree, temp); }
    }

    // ----- syncing an instance back to the image

    lemma CopiedSwaps(t: Tree, built: Tree)
      requires Laid() && BinMovable(ThePlan(), t) && Built(ThePlan(), t, 0, built) && WellFormed(built) && target in t
      ensures Exchangeable(built, target, temp)
    {
      hide BinMovable, OnlyBelow, Exchangeable, HasParent, Built;
      BuiltFacts(ThePlan(), t, 0, built);
      BackupApart(t, built);
      BuiltSwaps(ThePlan(), backup, t, 0, built, built);
    }

    /** From the empty temporary directory to the removal of the backup. */
    method AttemptSync(cancelled: bool, ghost t: Tree) returns (ok: bool, live: bool, seen: bool, stranded: bool)
      requires disk.Valid() && Laid() && exclude == [] && WellFormed(t) && temp !in t && disk.tree == t[temp := Dir]
      modifies disk
      ensures disk.Valid() && Elsewhere(t, disk.tree, target, temp, backup)
      ensures live ==> Synced(ThePlan(), t, seen, disk.tree) && temp !in disk.tree
      ensures !live ==> Survives(t, target, backup, disk.tree, !stranded)
      ensures !live && stranded ==> NoBin(disk.tree, target) && NoBin(disk.tree, backup)
      ensures ok ==> live && backup !in disk.tree
      ensures disk.faults >= old(disk.faults)
      ensures disk.faults == old(disk.faults) && live ==> seen
      ensures cancelled ==> !live
      ensures disk.faults == old(disk.faults) && !cancelled && SyncReady(ThePlan(), backup, t) ==> ok
      ensures !live ==>
        || backup in t
        || disk.faults > old(disk.faults) + (if !cancelled && SyncReady(ThePlan(), backup, t) then 1 else 0)
        || SameDirectory(t, target, disk.tree, target, !stranded)
    {
      hide Built, Synced, Survives, Swapped, Elsewhere, OnlyBelow, NoBin, SameDirectory, Exchangeable, BinMovable, HasParent;
      live, seen, stranded := false, false, false;
      ok := CopyOrigin(t);
      ghost var built := disk.tree;
      BelowTemp(ThePlan(), backup, t, built);
      if !ok || cancelled {
        ok := false;
        return;
      }
      BuiltFacts(ThePlan(), t, 0, built);
      BackupApart(t, built);
      if SyncReady(ThePlan(), backup, t) { CopiedSwaps(t, built); }
      live, seen, stranded := SwapWithOld();
      ghost var swapped := disk.tree;
      ElsewhereTwice(t, built, swapped, target, temp, backup);
      if !live {
        SurvivesLater(t, built, swapped, target, backup, !stranded);
        HomeLater(t, built, swapped, target, !stranded);
        return false, live, seen, stranded;
      }
      ok := RemoveBackup();
      ElsewhereTwice(t, swapped, disk.tree, target, temp, backup);
      SwapSyncs(ThePlan(), t, built, swapped, disk.tree, seen);
    }

    /** syncInstanceBackToImage: the image gets what the instance holds and keeps its own bin. */
    method SyncBack(cancelled: bool) returns (ok: bool, live: bool, seen: bool, stranded: bool)
      requires disk.Valid() && Laid() && exclude == []
      modifies disk
      ensures disk.Valid() && Elsewhere(old(disk.tree), disk.tree, target, temp, backup)
      ensures live ==> Synced(ThePlan(), old(disk.tree), seen, disk.tree) && temp !in disk.tree
      ensures !live ==> Survives(old(disk.tree), target, backup, disk.tree, !stranded)
      ensures !live && stranded && temp !in disk.tree ==>
        NoBin(disk.tree, target) && NoBin(disk.tree, backup) && NoBin(disk.tree, temp)
      ensures ok ==> live && backup !in disk.tree
      ensures disk.faults >= old(disk.faults)
      ensures disk.faults == old(disk.faults) && live ==> seen && BinKept(old(disk.tree), target, disk.tree)
      ensures cancelled ==> !live
      ensures disk.faults == old(disk.faults) && !cancelled && SyncReady(ThePlan(), backup, old(disk.tree)) ==> ok
      ensures disk.faults == old(disk.faults) && temp !in old(disk.tree) ==> temp !in disk.tree
      ensures !live ==>
        || disk.faults > old(disk.faults) + (if !cancelled && SyncReady(ThePlan(), backup, old(disk.tree)) then 1 else 0)
        || SameDirectory(old(disk.tree), target, disk.tree, target, !stranded)
    {
      hide Synced, Survives, Elsewhere, NoBin, SameDirectory, BinKept, BinMovable, Copyable;
      ghost var t := disk.tree;
      ok, live, seen, stranded := false, false, false, false;
      Unmoved(t, target, temp, backup);
      SameItself(t, target);
      if |origin| != 1 {
        return;
      }
      var tempTaken := PathExists(temp);
      var backupTaken := PathExists(backup);
      if tempTaken || backupTaken {
        return;
      }
      var status := disk.Mkdir(temp);
      if status != Ok {
        return;
      }
      ok, live, seen, stranded := AttemptSync(cancelled, t);
      ghost var attempted := disk.tree;
      var cleaned := CleanUp();
      ok := ok && cleaned;
      ElsewhereTwice(t, attempted, disk.tree, target, temp, backup);
      if !live {
        StillSurvives(t, attempted, disk.tree, target, backup, !stranded);
        StillHome(t, attempted, disk.tree, target, !stranded);
        if stranded { StillNoBin(attempted, disk.tree, target, backup); }
      }
      if live && seen { SyncedKeepsBin(ThePlan(), t, disk.tree); }
      if temp !in disk.tree { NoBinWithout(disk.tree, temp); }
    }

    predicate Reaches(rel: Path, all: bool)
      ensures Reaches(rel, all) <==> Selected(rel, all, exclude)
    {
      all || Walked(rel, exclude)
    }
  }

  lemma NothingCopied(t: Tree, source: Path, dest: Path, all: bool, exclude: seq<Exclude>)
    ensures Copied(t, t, source, dest, all, exclude, [])
  {
  }

  lemma OnlyBelowMore(t: Tree, u: Tree, v: Tree, dest: Path, rel: Path)
    requires OnlyBelow(t, u, dest) && OnlyBelow(u, v, dest + rel)
    ensures OnlyBelow(t, v, dest)
  {
    forall p | !(dest <= p) ensures (p in t <==> p in v) && (p in t ==> v[p] == t[p]) {
      PrefixTransitive(dest, dest + rel, p);
    }
  }

  /** At an entry that is selected, its source is untouched and the parent of its copy is there. */
  lemma CopyOne(t: Tree, u: Tree, source: Path, dest: Path, all: bool, exclude: seq<Exclude>, entries: seq<Path>, n: nat)
    requires n < |entries| && IsWalk(entries, t, source) && Apart(source, dest) && WellFormed(t)
    requires Copied(t, u, source, dest, all, exclude, entries[..n]) && dest in u && u[dest] == Dir
    requires Selected(entries[n], all, exclude)
    ensures var rel := entries[n];
      && dest + rel != [] && source + rel in u && u[source + rel] == t[source + rel]
      && Parent(dest + rel) in u && u[Parent(dest + rel)] == Dir
  {
    var rel := entries[n];
    assert !(dest <= source + rel) by { ApartBelow(source, dest, rel); }
    assert Parent(dest + rel) == dest + Parent(rel);
    assert Parent(source + rel) == source + Parent(rel);
    if Parent(rel) == [] {
      assert dest + [] == dest;
    } else {
      assert Selected(Parent(rel), all, exclude);
      assert source + Parent(rel) in t && t[source + Parent(rel)] == Dir;
    }
  }

  /** Half way through a copy an entry has the chance it had at the start. */
  lemma SameChance(t: Tree, u: Tree, source: Path, dest: Path, all: bool, exclude: seq<Exclude>, entries: seq<Path>, n: nat)
    requires n < |entries| && IsWalk(entries, t, source) && Apart(source, dest)
    requires Copied(t, u, source, dest, all, exclude, entries[..n])
    ensures source + entries[n] in t && source + entries[n] in u
    ensures CanCopyOne(u, source + entries[n], dest + entries[n]) <==> CanCopyOne(t, source + entries[n], dest + entries[n])
  {
    var rel := entries[n];
    ApartBelow(source, dest, rel);
    assert rel !in entries[..n];
  }

  lemma NoneYet(t: Tree, source: Path, dest: Path, all: bool, exclude: seq<Exclude>, entries: seq<Path>)
    ensures CanCopyFirst(t, source, dest, all, exclude, entries, 0) && OnlyBelow(t, t, dest)
  {
  }

  lemma OneMoreChance(t: Tree, source: Path, dest: Path, all: bool, exclude: seq<Exclude>, entries: seq<Path>, n: nat)
    requires n < |entries| && CanCopyFirst(t, source, dest, all, exclude, entries, n)
    requires Selected(entries[n], all, exclude) ==>
      source + entries[n] in t && CanCopyOne(t, source + entries[n], dest + entries[n])
    ensures CanCopyFirst(t, source, dest, all, exclude, entries, n + 1)
  {
    hide Selected, CanCopyOne;
  }

  lemma CannotCopy(t: Tree, source: Path, dest: Path, all: bool, exclude: seq<Exclude>, entries: seq<Path>, n: nat)
    requires n < |entries| && IsWalk(entries, t, source) && Selected(entries[n], all, exclude)
    requires !CanCopyOne(t, source + entries[n], dest + entries[n])
    ensures !CanCopy(t, source, dest, all, exclude)
  {
    assert entries[n] != [] && source + entries[n] in t;
  }

  lemma CanCopyAll(t: Tree, source: Path, dest: Path, all: bool, exclude: seq<Exclude>, entries: seq<Path>)
    requires IsWalk(entries, t, source) && CanCopyFirst(t, source, dest, all, exclude, entries, |entries|)
    ensures CanCopy(t, source, dest, all, exclude)
  {
    hide CanCopyOne, Selected;
    forall rel | rel != [] && source + rel in t && Selected(rel, all, exclude) ensures CanCopyOne(t, source + rel, dest + rel) {
      var i :| 0 <= i < |entries| && entries[i] == rel;
    }
  }

  lemma ApartBelow(p: Path, q: Path, rel: Path)
    requires Apart(p, q)
    ensures !(q <= p + rel)
  {
    PrefixesCompare(q, p, p + rel);
  }

  lemma CopiedOneMore(t: Tree, u: Tree, v: Tree, source: Path, dest: Path, all: bool, exclude: seq<Exclude>, entries: seq<Path>, n: nat)
    requires n < |entries| && IsWalk(entries, t, source)
    requires Copied(t, u, source, dest, all, exclude, entries[..n]) && Selected(entries[n], all, exclude)
    requires dest + entries[n] in v && v == u[dest + entries[n] := v[dest + entries[n]]]
    requires source + entries[n] in t && SameItem(v[dest + entries[n]], t[source + entries[n]])
    requires OnlyBelow(t, v, dest)
    ensures Copied(t, v, source, dest, all, exclude, entries[..n + 1])
  {
    hide Selected, SameItem, OnlyBelow, IsWalk;
    OneMoreDone(entries, n);
    forall rel | rel != entries[n] ensures dest + rel != dest + entries[n] {
      AddInjective(dest, rel, entries[n]);
    }
  }

  lemma OneMoreDone(entries: seq<Path>, n: nat)
    requires n < |entries|
    ensures forall p :: p in entries[..n + 1] <==> p in entries[..n] || p == entries[n]
  {
    assert entries[..n + 1] == entries[..n] + [entries[n]];
  }

  lemma NotSelected(t: Tree, u: Tree, source: Path, dest: Path, all: bool, exclude: seq<Exclude>, entries: seq<Path>, n: nat)
    requires n < |entries| && Copied(t, u, source, dest, all, exclude, entries[..n]) && !Selected(entries[n], all, exclude)
    ensures Copied(t, u, source, dest, all, exclude, entries[..n + 1])
  {
    hide Selected, SameItem, OnlyBelow;
    OneMoreDone(entries, n);
  }

  // ----- the tree being built

  /** What the new tree holds once the image is copied and the first k excludes are restored: the
      old instance at and below an exclude, the image elsewhere, and the directories above excludes. */
  datatype Plan = Plan(origin: Path, target: Path, temp: Path, exclude: seq<Exclude>)

  ghost predicate FromOld(plan: Plan, t: Tree, k: nat, rel: Path)
    requires k <= |plan.exclude|
  {
    plan.target + rel in t && exists i :: 0 <= i < k && plan.exclude[i].path <= rel
  }

  ghost predicate FromImage(plan: Plan, t: Tree, rel: Path) {
    plan.origin + rel in t && Walked(rel, plan.exclude)
  }

  ghost predicate Above(plan: Plan, t: Tree, k: nat, rel: Path)
    requires k <= |plan.exclude|
  {
    exists i :: 0 <= i < k && rel <= plan.exclude[i].path && rel != plan.exclude[i].path && plan.target + plan.exclude[i].path in t
  }

  ghost predicate Held(plan: Plan, t: Tree, k: nat, rel: Path)
    requires k <= |plan.exclude|
  {
    rel == [] || FromOld(plan, t, k, rel) || FromImage(plan, t, rel) || Above(plan, t, k, rel)
  }

  ghost function Item(plan: Plan, t: Tree, k: nat, rel: Path): Node
    requires k <= |plan.exclude|
  {
    if FromOld(plan, t, k, rel) then t[plan.target + rel]
    else if FromImage(plan, t, rel) then t[plan.origin + rel]
    else Dir
  }

  ghost predicate Built(plan: Plan, t: Tree, k: nat, u: Tree)
    requires k <= |plan.exclude|
  {
    && OnlyBelow(t, u, plan.temp)
    && (forall rel :: plan.temp + rel in u <==> Held(plan, t, k, rel))
    && (forall rel :: rel != [] && Held(plan, t, k, rel) ==> SameItem(u[plan.temp + rel], Item(plan, t, k, rel)))
    && plan.temp in u && u[plan.temp] == Dir
  }

  lemma NothingBelow(t: Tree, root: Path)
    requires WellFormed(t) && root !in t
    ensures forall p :: p in t ==> !(root <= p)
  {
    forall p | p in t ensures !(root <= p) {
      if root <= p { AncestorsExist(t, p, root); }
    }
  }

  lemma WalkedEntries(entries: seq<Path>, t: Tree, source: Path)
    requires IsWalk(entries, t, source)
    ensures forall rel :: rel in entries <==> rel != [] && source + rel in t
  {
  }

  lemma StillOnlyBelow(t: Tree, started: Tree, u: Tree, root: Path)
    requires started == t[root := Dir] && OnlyBelow(started, u, root)
    ensures OnlyBelow(t, u, root)
  {
  }

  /** One path of the copied image. */
  lemma ImageAt(plan: Plan, t: Tree, started: Tree, u: Tree, entries: seq<Path>, rel: Path)
    requires started == t[plan.temp := Dir] && Apart(plan.origin, plan.temp)
    requires forall p :: p in t ==> !(plan.temp <= p)
    requires rel != [] && (rel in entries <==> plan.origin + rel in started)
    requires Copied(started, u, plan.origin, plan.temp, false, plan.exclude, entries)
    ensures plan.temp + rel in u <==> Held(plan, t, 0, rel)
    ensures Held(plan, t, 0, rel) ==> SameItem(u[plan.temp + rel], Item(plan, t, 0, rel))
  {
    hide Walked, SameItem, OnlyBelow;
    ApartBelow(plan.origin, plan.temp, rel);
    assert plan.temp <= plan.temp + rel && plan.temp + rel != plan.temp;
  }

  /** Copying the image into the empty temporary directory. */
  lemma ImageIsBuilt(plan: Plan, t: Tree, started: Tree, u: Tree, entries: seq<Path>)
    requires started == t[plan.temp := Dir] && IsWalk(entries, started, plan.origin) && Apart(plan.origin, plan.temp)
    requires forall p :: p in t ==> !(plan.temp <= p)
    requires WellFormed(t) && plan.origin in t
    requires Copied(started, u, plan.origin, plan.temp, false, plan.exclude, entries) && plan.temp in u && u[plan.temp] == Dir
    ensures Built(plan, t, 0, u)
  {
    hide WellFormed, Walked, IsWalk, OnlyBelow, SameItem, Item, FromOld, FromImage, Above, Apart;
    assert plan.temp + [] == plan.temp;
    WalkedEntries(entries, started, plan.origin);
    StillOnlyBelow(t, started, u, plan.temp);
    forall rel | rel != []
      ensures plan.temp + rel in u <==> Held(plan, t, 0, rel)
      ensures Held(plan, t, 0, rel) ==> SameItem(u[plan.temp + rel], Item(plan, t, 0, rel))
    {
      ImageAt(plan, t, started, u, entries, rel);
    }
  }

  // ----- restoring one exclude

  lemma FromOldNext(plan: Plan, t: Tree, k: nat, rel: Path)
    requires k < |plan.exclude|
    ensures FromOld(plan, t, k + 1, rel) <==>
      FromOld(plan, t, k, rel) || (plan.target + rel in t && plan.exclude[k].path <= rel)
    ensures Above(plan, t, k + 1, rel) <==>
      || Above(plan, t, k, rel)
      || (rel <= plan.exclude[k].path && rel != plan.exclude[k].path && plan.target + plan.exclude[k].path in t)
  {
  }

  /** No exclude lies at or below another, and the image has only directories above what is kept. */
  ghost predicate NoClash(plan: Plan, t: Tree) {
    && (forall i, j :: 0 <= i < |plan.exclude| && 0 <= j < |plan.exclude| && i != j ==>
         !(plan.exclude[i].path <= plan.exclude[j].path))
    && (forall i :: 0 <= i < |plan.exclude| && plan.target + plan.exclude[i].path in t ==>
         RoomFor(plan, t, plan.exclude[i].path))
  }

  ghost predicate RoomFor(plan: Plan, t: Tree, path: Path) {
    forall q :: q <= path && q != path && FromImage(plan, t, q) ==> t[plan.origin + q] == Dir
  }

  /** Under the excludes the old instance holds directories and files only. */
  ghost predicate Plain(plan: Plan, t: Tree) {
    forall i, rel :: 0 <= i < |plan.exclude| && plan.exclude[i].path <= rel && plan.target + rel in t ==>
      t[plan.target + rel] == Dir || t[plan.target + rel].File?
  }

  /** Nothing of an exclude is there before it is restored. */
  lemma NothingAt(plan: Plan, t: Tree, k: nat, u: Tree, rel: Path)
    requires k < |plan.exclude| && WellFormed(t) && ValidExcludes(plan.exclude) && Built(plan, t, k, u) && NoClash(plan, t)
    requires plan.exclude[k].path <= rel
    ensures plan.temp + rel !in u
  {
    hide Walked, SameItem, OnlyBelow;
    var e := plan.exclude[k].path;
    forall i | 0 <= i < k ensures !(plan.exclude[i].path <= rel) && !(rel <= plan.exclude[i].path) {
      PrefixesCompare(plan.exclude[i].path, e, rel);
      PrefixTransitive(e, rel, plan.exclude[i].path);
    }
    WalkedIff(rel, plan.exclude);
    assert Covered(rel, plan.exclude);
  }

  lemma OnlyDirsAbove(plan: Plan, t: Tree, k: nat, u: Tree, rel: Path)
    requires k < |plan.exclude| && WellFormed(t) && ValidExcludes(plan.exclude) && Built(plan, t, k, u) && NoClash(plan, t)
    requires rel <= plan.exclude[k].path && plan.target + plan.exclude[k].path in t
    ensures OnlyDirsUp(u, plan.temp, rel)
  {
    hide Walked, OnlyBelow;
    var e := plan.exclude[k].path;
    forall q | q <= rel && plan.temp + q in u ensures u[plan.temp + q] == Dir {
      PrefixTransitive(q, rel, e);
      if q == e {
        NothingAt(plan, t, k, u, q);
      } else if q != [] {
        assert Held(plan, t, k, q);
        assert SameItem(u[plan.temp + q], Item(plan, t, k, q));
      } else {
        assert plan.temp + q == plan.temp;
      }
    }
  }

  lemma MeasuredAt(plan: Plan, t: Tree, i: nat)
    requires i < |plan.exclude| && Measurable(plan, t)
    ensures MeasurableAt(plan, t, i)
  {
  }

  /** With the directories above made, all of an exclude can be copied. */
  lemma CanRestore(plan: Plan, t: Tree, k: nat, u: Tree, made: Tree)
    requires k < |plan.exclude| && WellFormed(t) && ValidExcludes(plan.exclude) && Built(plan, t, k, u)
    requires NoClash(plan, t) && Plain(plan, t) && Apart(plan.target, plan.temp)
    requires OnlyBelow(u, made, plan.temp) && DirsMade(u, made, plan.temp, plan.exclude[k].path)
    ensures var e := plan.exclude[k].path; CanCopy(made, plan.target + e, plan.temp + e, true, plan.exclude)
  {
    hide Walked, Built, NoClash, OnlyBelow;
    var e := plan.exclude[k].path;
    BuiltFacts(plan, t, k, u);
    forall rel | rel != [] && plan.target + e + rel in made
      ensures CanCopyOne(made, plan.target + e + rel, plan.temp + e + rel)
    {
      assert plan.target + e + rel == plan.target + (e + rel) && plan.temp + e + rel == plan.temp + (e + rel);
      OutsideTemp(plan, t, u, e + rel);
      OutsideTemp(plan, u, made, e + rel);
      assert e <= e + rel;
      NothingAt(plan, t, k, u, e + rel);
      MadeAt(u, made, plan.temp, e, e + rel);
    }
  }

  lemma CanRestoreFile(plan: Plan, t: Tree, k: nat, u: Tree, made: Tree)
    requires k < |plan.exclude| && WellFormed(t) && ValidExcludes(plan.exclude) && Built(plan, t, k, u)
    requires NoClash(plan, t) && Plain(plan, t) && Apart(plan.target, plan.temp)
    requires OnlyBelow(u, made, plan.temp) && DirsMade(u, made, plan.temp, Parent(plan.exclude[k].path))
    requires plan.target + plan.exclude[k].path in t && t[plan.target + plan.exclude[k].path] != Dir
    ensures var e := plan.exclude[k].path;
      plan.target + e in made && CanCopyOne(made, plan.target + e, plan.temp + e)
  {
    hide Walked, Built, NoClash, OnlyBelow;
    var e := plan.exclude[k].path;
    BuiltFacts(plan, t, k, u);
    OutsideTemp(plan, t, u, e);
    OutsideTemp(plan, u, made, e);
    assert e <= e;
    NothingAt(plan, t, k, u, e);
    MadeAt(u, made, plan.temp, Parent(e), e);
  }

  lemma OldAncestor(t: Tree, root: Path, q: Path, rel: Path)
    requires WellFormed(t) && root + rel in t && q <= rel
    ensures root + q in t && (q != rel ==> t[root + q] == Dir)
  {
    assert rel == q + rel[|q|..];
    assert root + rel == root + q + rel[|q|..];
    AncestorsExist(t, root + rel, root + q);
    if q != rel { AddInjective(root, q, rel); }
  }

  /** An exclude the old instance does not have adds nothing. */
  lemma ExcludeMissing(plan: Plan, t: Tree, k: nat, u: Tree)
    requires k < |plan.exclude| && WellFormed(t) && Built(plan, t, k, u) && plan.target + plan.exclude[k].path !in t
    ensures Built(plan, t, k + 1, u)
  {
    hide Walked, SameItem;
    forall rel
      ensures FromOld(plan, t, k + 1, rel) <==> FromOld(plan, t, k, rel)
      ensures Above(plan, t, k + 1, rel) <==> Above(plan, t, k, rel)
    {
      FromOldNext(plan, t, k, rel);
      if plan.target + rel in t && plan.exclude[k].path <= rel { OldAncestor(t, plan.target, plan.exclude[k].path, rel); }
    }
  }

  /** What restoring the exclude k does: everything of the old instance at and below its path is
      there, and the directories above it. */
  ghost predicate RestoredOne(plan: Plan, t: Tree, k: nat, u: Tree, v: Tree)
    requires k < |plan.exclude|
  {
    var e := plan.exclude[k].path;
    && OnlyBelow(u, v, plan.temp) && plan.target + e in t
    && (forall rel :: plan.temp + rel in v <==>
         plan.temp + rel in u || rel <= e || (e <= rel && plan.target + rel in t))
    && (forall rel :: e <= rel && plan.target + rel in t ==> SameItem(v[plan.temp + rel], t[plan.target + rel]))
    && (forall rel :: plan.temp + rel in u && !(e <= rel) ==> v[plan.temp + rel] == u[plan.temp + rel])
    && (forall rel :: rel <= e && rel != e ==> v[plan.temp + rel] == Dir)
  }

  lemma ExcludeRestored(plan: Plan, t: Tree, k: nat, u: Tree, v: Tree)
    requires k < |plan.exclude| && WellFormed(t) && ValidExcludes(plan.exclude)
    requires Built(plan, t, k, u) && RestoredOne(plan, t, k, u, v)
    ensures Built(plan, t, k + 1, v)
  {
    hide Walked, Built, RestoredOne, OnlyBelow, SameItem, Held, Item;
    OnlyBelowTwice(plan, t, k, u, v);
    forall rel ensures plan.temp + rel in v <==> Held(plan, t, k + 1, rel) {
      HeldNext(plan, t, k, u, v, rel);
    }
    forall rel | rel != [] && Held(plan, t, k + 1, rel) ensures SameItem(v[plan.temp + rel], Item(plan, t, k + 1, rel)) {
      HeldNext(plan, t, k, u, v, rel);
      ItemNext(plan, t, k, u, v, rel);
    }
    IsBuilt(plan, t, k + 1, v);
  }

  lemma OnlyBelowTwice(plan: Plan, t: Tree, k: nat, u: Tree, v: Tree)
    requires k < |plan.exclude| && ValidExcludes(plan.exclude) && Built(plan, t, k, u) && RestoredOne(plan, t, k, u, v)
    ensures OnlyBelow(t, v, plan.temp) && plan.temp in v && v[plan.temp] == Dir
  {
    assert plan.temp + [] == plan.temp;
    assert [] <= plan.exclude[k].path;
  }

  lemma IsBuilt(plan: Plan, t: Tree, k: nat, v: Tree)
    requires k <= |plan.exclude| && OnlyBelow(t, v, plan.temp) && plan.temp in v && v[plan.temp] == Dir
    requires forall rel :: plan.temp + rel in v <==> Held(plan, t, k, rel)
    requires forall rel :: rel != [] && Held(plan, t, k, rel) ==> SameItem(v[plan.temp + rel], Item(plan, t, k, rel))
    ensures Built(plan, t, k, v)
  {
    hide OnlyBelow, Held, Item, SameItem;
  }

  /** Only the old instance holds anything at or below an exclude. */
  lemma HeldBelowExclude(plan: Plan, t: Tree, k: nat, rel: Path)
    requires k < |plan.exclude| && WellFormed(t) && ValidExcludes(plan.exclude)
    requires Held(plan, t, k, rel) && plan.exclude[k].path <= rel
    ensures plan.target + rel in t && !FromImage(plan, t, rel)
  {
    WalkedIff(rel, plan.exclude);
    assert Covered(rel, plan.exclude);
    if Above(plan, t, k, rel) {
      var i :| 0 <= i < k && rel <= plan.exclude[i].path && rel != plan.exclude[i].path && plan.target + plan.exclude[i].path in t;
      OldAncestor(t, plan.target, rel, plan.exclude[i].path);
    }
  }

  lemma HeldNext(plan: Plan, t: Tree, k: nat, u: Tree, v: Tree, rel: Path)
    requires k < |plan.exclude| && WellFormed(t) && ValidExcludes(plan.exclude)
    requires Built(plan, t, k, u) && RestoredOne(plan, t, k, u, v)
    ensures plan.temp + rel in v <==> Held(plan, t, k + 1, rel)
  {
    hide Walked, OnlyBelow, SameItem, Item;
    FromOldNext(plan, t, k, rel);
    var e := plan.exclude[k].path;
    if Held(plan, t, k, rel) && e <= rel { HeldBelowExclude(plan, t, k, rel); }
  }

  lemma ItemNext(plan: Plan, t: Tree, k: nat, u: Tree, v: Tree, rel: Path)
    requires k < |plan.exclude| && WellFormed(t) && ValidExcludes(plan.exclude) && rel != []
    requires Built(plan, t, k, u) && RestoredOne(plan, t, k, u, v) && Held(plan, t, k + 1, rel) && plan.temp + rel in v
    ensures SameItem(v[plan.temp + rel], Item(plan, t, k + 1, rel))
  {
    hide Walked, OnlyBelow;
    FromOldNext(plan, t, k, rel);
    var e := plan.exclude[k].path;
    if e <= rel {
      assert FromOld(plan, t, k + 1, rel) by {
        if Held(plan, t, k, rel) { HeldBelowExclude(plan, t, k, rel); }
        if Above(plan, t, k + 1, rel) && !Above(plan, t, k, rel) { SamePrefix(e, rel); }
      }
    } else if rel <= e {
      OldAncestor(t, plan.target, rel, e);
      assert Held(plan, t, k, rel) ==> plan.temp + rel in u;
    }
  }

  lemma SamePrefix(a: Path, b: Path)
    requires a <= b && b <= a
    ensures a == b
  {
  }

  lemma OutsideTemp(plan: Plan, t: Tree, u: Tree, rel: Path)
    requires OnlyBelow(t, u, plan.temp) && Apart(plan.target, plan.temp)
    ensures plan.target + rel in t <==> plan.target + rel in u
    ensures plan.target + rel in t ==> u[plan.target + rel] == t[plan.target + rel]
  {
    ApartBelow(plan.target, plan.temp, rel);
  }

  lemma DirectoryRestored(plan: Plan, t: Tree, k: nat, u: Tree, made: Tree, v: Tree, entries: seq<Path>)
    requires k < |plan.exclude| && Apart(plan.target, plan.temp) && OnlyBelow(t, u, plan.temp)
    requires var e := plan.exclude[k].path;
      && plan.target + e in t && t[plan.target + e] == Dir
      && OnlyBelow(u, made, plan.temp) && DirsMade(u, made, plan.temp, e)
      && IsWalk(entries, made, plan.target + e)
      && Copied(made, v, plan.target + e, plan.temp + e, true, plan.exclude, entries)
    ensures RestoredOne(plan, t, k, u, v)
  {
    hide Walked, IsWalk;
    var e := plan.exclude[k].path;
    OnlyBelowMore(u, made, v, plan.temp, e);
    forall rel
      ensures plan.temp + rel in v <==> plan.temp + rel in u || rel <= e || (e <= rel && plan.target + rel in t)
      ensures e <= rel && plan.target + rel in t ==> SameItem(v[plan.temp + rel], t[plan.target + rel])
      ensures plan.temp + rel in u && !(e <= rel) ==> v[plan.temp + rel] == u[plan.temp + rel]
      ensures rel <= e && rel != e ==> v[plan.temp + rel] == Dir
    {
      DirectoryRestoredAt(plan, t, k, u, made, v, entries, rel);
    }
  }

  lemma DirectoryRestoredAt(plan: Plan, t: Tree, k: nat, u: Tree, made: Tree, v: Tree, entries: seq<Path>, rel: Path)
    requires k < |plan.exclude| && Apart(plan.target, plan.temp) && OnlyBelow(t, u, plan.temp)
    requires var e := plan.exclude[k].path;
      && plan.target + e in t && t[plan.target + e] == Dir
      && OnlyBelow(u, made, plan.temp) && DirsMade(u, made, plan.temp, e)
      && IsWalk(entries, made, plan.target + e)
      && Copied(made, v, plan.target + e, plan.temp + e, true, plan.exclude, entries)
    ensures var e := plan.exclude[k].path;
      && (plan.temp + rel in v <==> plan.temp + rel in u || rel <= e || (e <= rel && plan.target + rel in t))
      && (e <= rel && plan.target + rel in t ==> SameItem(v[plan.temp + rel], t[plan.target + rel]))
      && (plan.temp + rel in u && !(e <= rel) ==> v[plan.temp + rel] == u[plan.temp + rel])
      && (rel <= e && rel != e ==> v[plan.temp + rel] == Dir)
  {
    hide Walked, SameItem, DirsMade, OnlyBelow, Copied, IsWalk;
    var e := plan.exclude[k].path;
    OutsideTemp(plan, t, u, rel);
    OutsideTemp(plan, u, made, rel);
    MadeAt(u, made, plan.temp, e, rel);
    if e <= rel {
      var r := rel[|e|..];
      assert rel == e + r;
      assert plan.temp + rel == plan.temp + e + r && plan.target + rel == plan.target + e + r;
      OutsideTemp(plan, t, u, e);
      OutsideTemp(plan, u, made, e);
      MadeAt(u, made, plan.temp, e, e);
      WholeCopied(made, v, plan.target + e, plan.temp + e, plan.exclude, entries, r);
    } else {
      assert !(plan.temp + e <= plan.temp + rel) by { AddPrefix(plan.temp, e, rel); }
      OutsideCopied(made, v, plan.target + e, plan.temp + e, plan.exclude, entries, plan.temp + rel);
    }
  }

  /** A copy of everything below a directory into one that is there. */
  lemma WholeCopied(t: Tree, u: Tree, source: Path, dest: Path, exclude: seq<Exclude>, entries: seq<Path>, rel: Path)
    requires IsWalk(entries, t, source) && Copied(t, u, source, dest, true, exclude, entries)
    requires source in t && t[source] == Dir && dest in t && t[dest] == Dir
    ensures dest + rel in u <==> dest + rel in t || source + rel in t
    ensures source + rel in t ==> SameItem(u[dest + rel], t[source + rel])
  {
    hide Walked, OnlyBelow;
    assert dest + [] == dest && source + [] == source;
  }

  lemma OutsideCopied(t: Tree, u: Tree, source: Path, dest: Path, exclude: seq<Exclude>, entries: seq<Path>, p: Path)
    requires Copied(t, u, source, dest, true, exclude, entries) && !(dest <= p)
    ensures (p in t <==> p in u) && (p in t ==> u[p] == t[p])
  {
    hide Walked;
  }

  lemma AddPrefix(root: Path, a: Path, b: Path)
    ensures root + a <= root + b <==> a <= b
  {
    if root + a <= root + b {
      assert a == (root + a)[|root|..] && b == (root + b)[|root|..];
      assert a == (root + b)[..|root| + |a|][|root|..] == b[..|a|];
    }
  }

  lemma MadeAt(u: Tree, made: Tree, root: Path, e: Path, rel: Path)
    requires DirsMade(u, made, root, e)
    ensures root + rel in made <==> root + rel in u || rel <= e
    ensures root + rel in u ==> made[root + rel] == u[root + rel]
    ensures rel <= e ==> root + rel in made && made[root + rel] == Dir
  {
    assert (root + rel)[|root|..] == rel;
  }

  lemma FileRestored(plan: Plan, t: Tree, k: nat, u: Tree, made: Tree, v: Tree)
    requires k < |plan.exclude| && Apart(plan.target, plan.temp) && OnlyBelow(t, u, plan.temp) && plan.exclude[k].path != [] && WellFormed(t)
    requires var e := plan.exclude[k].path;
      && plan.target + e in t && t[plan.target + e] != Dir
      && OnlyBelow(u, made, plan.temp) && DirsMade(u, made, plan.temp, Parent(e))
      && plan.temp + e in v && v == made[plan.temp + e := v[plan.temp + e]] && SameItem(v[plan.temp + e], t[plan.target + e])
    ensures RestoredOne(plan, t, k, u, v)
  {
    var e := plan.exclude[k].path;
    assert plan.temp <= plan.temp + e;
    forall rel
      ensures plan.temp + rel in v <==> plan.temp + rel in u || rel <= e || (e <= rel && plan.target + rel in t)
      ensures e <= rel && plan.target + rel in t ==> SameItem(v[plan.temp + rel], t[plan.target + rel])
      ensures plan.temp + rel in u && !(e <= rel) ==> v[plan.temp + rel] == u[plan.temp + rel]
      ensures rel <= e && rel != e ==> v[plan.temp + rel] == Dir
    {
      MadeAt(u, made, plan.temp, Parent(e), rel);
      PrefixOfParent(rel, e);
      AddInjective(plan.temp, rel, e);
      if e <= rel && plan.target + rel in t { OldAncestor(t, plan.target, e, rel); }
    }
  }

  lemma BuiltFacts(plan: Plan, t: Tree, k: nat, u: Tree)
    requires k <= |plan.exclude| && Built(plan, t, k, u)
    ensures OnlyBelow(t, u, plan.temp) && plan.temp in u && u[plan.temp] == Dir
  {
  }

  lemma OnlyBelowAgain(t: Tree, u: Tree, v: Tree, root: Path)
    requires OnlyBelow(t, u, root) && OnlyBelow(u, v, root)
    ensures OnlyBelow(t, v, root)
  {
  }

  // ----- the deployed instance

  ghost predicate DeployedAt(plan: Plan, t: Tree, k: nat, seen: bool, u: Tree, rel: Path)
    requires k <= |plan.exclude|
  {
    if seen && IsRecycleBinPath(rel) && plan.target + Recycle.BIN in t then
      SamePlace(t, plan.target + rel, u, plan.target + rel)
    else
      && (plan.target + rel in u <==> Held(plan, t, k, rel))
      && (Held(plan, t, k, rel) ==> SameItem(u[plan.target + rel], Item(plan, t, k, rel)))
  }

  /** server.properties in a directory at root: what the built tree had, with the port rewritten. */
  ghost predicate PortDeployed(plan: Plan, t: Tree, k: nat, port: nat, u: Tree)
    requires k <= |plan.exclude|
  {
    var path := plan.target + [PROPERTIES];
    var held := Held(plan, t, k, [PROPERTIES]);
    && path in u && u[path].File?
    && (held ==> Item(plan, t, k, [PROPERTIES]).File?)
    && u[path].data == Encode(Properties.Rewritten(Text(if held then Item(plan, t, k, [PROPERTIES]).data else []), port))
  }

  /** The instance directory u has after a deployment that started from t. */
  ghost predicate Deployed(plan: Plan, t: Tree, k: nat, port: nat, seen: bool, u: Tree)
    requires k <= |plan.exclude|
  {
    && plan.target in u && u[plan.target] == Dir
    && PortDeployed(plan, t, k, port, u)
    && forall rel :: rel != [] && rel != [PROPERTIES] ==> DeployedAt(plan, t, k, seen, u, rel)
  }

  /** The image after an instance was synced back. */
  ghost predicate Synced(plan: Plan, t: Tree, seen: bool, u: Tree) {
    plan.target in u && u[plan.target] == Dir && forall rel :: rel != [] ==> DeployedAt(plan, t, 0, seen, u, rel)
  }

  lemma SwapSyncs(plan: Plan, t: Tree, built: Tree, swapped: Tree, u: Tree, seen: bool)
    requires WellFormed(t) && Apart(plan.target, plan.temp) && Built(plan, t, 0, built)
    requires Swapped(built, plan.target, plan.temp, swapped, seen) && SameDirectory(swapped, plan.target, u, plan.target, true)
    ensures Synced(plan, t, seen, u)
  {
    hide Walked, Held, Item, OnlyBelow, SameItem, Built, Swapped, SameDirectory, DeployedAt;
    BuiltFacts(plan, t, 0, built);
    BinIsNotProperties();
    forall rel
      ensures rel != [] ==> DeployedAt(plan, t, 0, seen, u, rel)
      ensures !IsRecycleBinPath(rel) ==> SamePlace(built, plan.temp + rel, u, plan.target + rel)
    {
      assert SamePlace(built, plan.temp + rel, built, plan.temp + rel);
      SwapDeploysAt(plan, t, 0, built, built, swapped, u, seen, rel);
    }
    assert plan.temp + [] == plan.temp && plan.target + [] == plan.target;
    assert SamePlace(built, plan.temp + [], u, plan.target + []);
  }

  /** Outside the bin the image is the instance; the bin is the image's own if the check of the backup
      saw the old image, and empty otherwise. */
  lemma SyncedAnywhere(plan: Plan, t: Tree, seen: bool, u: Tree, rel: Path)
    requires WellFormed(t) && plan.exclude == [] && Synced(plan, t, seen, u) && rel != []
    ensures !IsRecycleBinPath(rel) ==>
      && (plan.target + rel in u <==> plan.origin + rel in t)
      && (plan.target + rel in u ==> SameItem(u[plan.target + rel], t[plan.origin + rel]))
    ensures IsRecycleBinPath(rel) && plan.target + Recycle.BIN in t ==>
      if seen then SamePlace(t, plan.target + rel, u, plan.target + rel) else plan.target + rel !in u
  {
    hide Walked, SameItem;
    WalkedIff(rel, plan.exclude);
    assert DeployedAt(plan, t, 0, seen, u, rel);
  }

  lemma TempIsDirectory(plan: Plan, t: Tree, u: Tree, port: nat)
    requires PortWritten(t, u, plan.temp, port) && plan.temp in t && t[plan.temp] == Dir
    ensures plan.temp in u && u[plan.temp] == Dir
  {
    assert |plan.temp + [PROPERTIES]| == |plan.temp| + 1;
  }

  lemma BelowTemp(plan: Plan, backup: Path, t: Tree, u: Tree)
    requires OnlyBelow(t, u, plan.temp) && Distinct(plan.target, plan.temp, backup)
    ensures Elsewhere(t, u, plan.target, plan.temp, backup) && SameDirectory(t, plan.target, u, plan.target, true)
    ensures Survives(t, plan.target, backup, u, true)
  {
    forall rel ensures SamePlace(t, plan.target + rel, u, plan.target + rel) {
      SidesDiffer(plan.temp, plan.target, [], rel);
    }
  }

  lemma SwapDeploys(plan: Plan, t: Tree, k: nat, built: Tree, written: Tree, swapped: Tree, u: Tree, port: nat, seen: bool)
    requires k <= |plan.exclude| && WellFormed(t) && Apart(plan.target, plan.temp)
    requires Built(plan, t, k, built) && PortWritten(built, written, plan.temp, port)
    requires Swapped(written, plan.target, plan.temp, swapped, seen) && SameDirectory(swapped, plan.target, u, plan.target, true)
    ensures Deployed(plan, t, k, port, seen, u)
  {
    hide Walked, Held, Item, OnlyBelow, SameItem, Encode, Text, Properties.Rewritten;
    BinIsNotProperties();
    BuiltFacts(plan, t, k, built);
    forall rel
      ensures rel != [] && rel != [PROPERTIES] ==> DeployedAt(plan, t, k, seen, u, rel)
      ensures !IsRecycleBinPath(rel) ==> SamePlace(written, plan.temp + rel, u, plan.target + rel)
    {
      PortElsewhere(plan, built, written, port, rel);
      OnlyBelowAgain(t, built, written, plan.temp);
      SwapDeploysAt(plan, t, k, built, written, swapped, u, seen, rel);
    }
    PortStays(plan, t, k, built, written, u, port);
  }

  lemma BinIsNotProperties()
    ensures !IsRecycleBinPath([]) && !IsRecycleBinPath([PROPERTIES])
  {
    assert |PROPERTIES| != |Recycle.RECYCLE_BIN|;
    assert [PROPERTIES][0] != Recycle.BIN[0];
  }

  lemma PortStays(plan: Plan, t: Tree, k: nat, built: Tree, written: Tree, u: Tree, port: nat)
    requires k <= |plan.exclude| && Built(plan, t, k, built) && PortWritten(built, written, plan.temp, port)
    requires SamePlace(written, plan.temp + [], u, plan.target + [])
    requires SamePlace(written, plan.temp + [PROPERTIES], u, plan.target + [PROPERTIES])
    ensures plan.target in u && u[plan.target] == Dir && PortDeployed(plan, t, k, port, u)
  {
    hide Walked, Held, Item, OnlyBelow, Encode, Text, Properties.Rewritten;
    TempIsDirectory(plan, built, written, port);
    assert plan.temp + [] == plan.temp && plan.target + [] == plan.target;
  }

  /** Writing the port changes nothing else. */
  lemma PortElsewhere(plan: Plan, t: Tree, u: Tree, port: nat, rel: Path)
    requires PortWritten(t, u, plan.temp, port)
    ensures OnlyBelow(t, u, plan.temp) && (rel != [PROPERTIES] ==> SamePlace(t, plan.temp + rel, u, plan.temp + rel))
  {
    AddInjective(plan.temp, rel, [PROPERTIES]);
    assert plan.temp <= plan.temp + [PROPERTIES];
  }

  lemma SwapDeploysAt(plan: Plan, t: Tree, k: nat, built: Tree, written: Tree, swapped: Tree, u: Tree, seen: bool, rel: Path)
    requires k <= |plan.exclude| && WellFormed(t) && Apart(plan.target, plan.temp)
    requires Built(plan, t, k, built) && OnlyBelow(t, written, plan.temp)
    requires Swapped(written, plan.target, plan.temp, swapped, seen) && SameDirectory(swapped, plan.target, u, plan.target, true)
    ensures rel != [] && SamePlace(built, plan.temp + rel, written, plan.temp + rel) ==> DeployedAt(plan, t, k, seen, u, rel)
    ensures !IsRecycleBinPath(rel) ==> SamePlace(written, plan.temp + rel, u, plan.target + rel)
  {
    hide Walked, Held, Item, OnlyBelow, SameItem;
    OutsideTemp(plan, t, written, rel);
    OutsideTemp(plan, t, written, Recycle.BIN);
    assert SamePlace(swapped, plan.target + rel, u, plan.target + rel);
  }

  /** Read off at a path: below an exclude the old instance, elsewhere the image. */
  lemma DeployedAnywhere(plan: Plan, t: Tree, k: nat, port: nat, seen: bool, u: Tree, rel: Path)
    requires WellFormed(t) && ValidExcludes(plan.exclude) && k == RestoredCount(plan, t) && Deployed(plan, t, k, port, seen, u)
    requires rel != [] && rel != [PROPERTIES] && !IsRecycleBinPath(rel)
    ensures Covered(rel, plan.exclude) ==>
      && (plan.target + rel in u <==> HasExcludedFile(plan, t) && plan.target + rel in t)
      && (plan.target + rel in u ==> SameItem(u[plan.target + rel], t[plan.target + rel]))
    ensures !Covered(rel, plan.exclude) && plan.origin + rel in t ==>
      plan.target + rel in u && SameItem(u[plan.target + rel], t[plan.origin + rel])
    ensures !Covered(rel, plan.exclude) && plan.origin + rel !in t ==>
      (plan.target + rel in u <==> Above(plan, t, k, rel)) && (plan.target + rel in u ==> u[plan.target + rel] == Dir)
  {
    hide HasExcludedFile, Walked, Held, Item, Covered, Above, SameItem, IsRecycleBinPath;
    assert DeployedAt(plan, t, k, seen, u, rel);
    HeldAnywhere(plan, t, k, rel);
    if plan.target + rel in u && Above(plan, t, k, rel) { DirOnly(u[plan.target + rel]); }
  }

  lemma DirOnly(node: Node)
    ensures SameItem(node, Dir) <==> node == Dir
  {
  }

  lemma HeldAnywhere(plan: Plan, t: Tree, k: nat, rel: Path)
    requires WellFormed(t) && ValidExcludes(plan.exclude) && k == RestoredCount(plan, t) && rel != [] && !IsRecycleBinPath(rel)
    ensures Covered(rel, plan.exclude) ==> (Held(plan, t, k, rel) <==> HasExcludedFile(plan, t) && plan.target + rel in t)
    ensures Covered(rel, plan.exclude) && Held(plan, t, k, rel) ==> Item(plan, t, k, rel) == t[plan.target + rel]
    ensures !Covered(rel, plan.exclude) && plan.origin + rel in t ==>
      Held(plan, t, k, rel) && Item(plan, t, k, rel) == t[plan.origin + rel]
    ensures !Covered(rel, plan.exclude) && plan.origin + rel !in t ==>
      (Held(plan, t, k, rel) <==> Above(plan, t, k, rel)) && Item(plan, t, k, rel) == Dir
  {
    hide HasExcludedFile, Walked, IsRecycleBinPath;
    WalkedIff(rel, plan.exclude);
    if Above(plan, t, k, rel) {
      var i :| 0 <= i < k && rel <= plan.exclude[i].path && rel != plan.exclude[i].path && plan.target + plan.exclude[i].path in t;
      OldAncestor(t, plan.target, rel, plan.exclude[i].path);
    }
  }

  /** Whether the old instance has anything under an exclude, even an empty directory. */
  ghost predicate HasExcluded(plan: Plan, t: Tree) {
    exists rel :: ExcludedPlace(plan, rel) && plan.target + rel in t
  }

  ghost predicate ExcludedPlace(plan: Plan, rel: Path) {
    rel != [PROPERTIES] && !IsRecycleBinPath(rel) && Covered(rel, plan.exclude)
  }

  /** Excluded directories without a single file in any exclude are not carried over. */
  lemma ExcludesKeptIff(plan: Plan, t: Tree, k: nat, port: nat, seen: bool, u: Tree)
    requires WellFormed(t) && ValidExcludes(plan.exclude) && k == RestoredCount(plan, t) && Deployed(plan, t, k, port, seen, u)
    ensures (forall rel :: ExcludedPlace(plan, rel) && plan.target + rel in t ==> plan.target + rel in u)
      <==> HasExcludedFile(plan, t) || !HasExcluded(plan, t)
  {
    hide Deployed, HasExcludedFile, SameItem;
    forall rel | ExcludedPlace(plan, rel)
      ensures plan.target + rel in u <==> HasExcludedFile(plan, t) && plan.target + rel in t
    {
      DeployedAnywhere(plan, t, k, port, seen, u, rel);
    }
  }

  /** A recycle bin is kept exactly if the check of the backup saw the old directory. */
  lemma BinKeptIff(plan: Plan, t: Tree, k: nat, port: nat, seen: bool, u: Tree)
    requires WellFormed(t) && ValidExcludes(plan.exclude) && k == RestoredCount(plan, t) && Deployed(plan, t, k, port, seen, u)
    requires plan.target + Recycle.BIN in t && forall i :: 0 <= i < |plan.exclude| ==> !IsRecycleBinPath(plan.exclude[i].path)
    ensures (forall rel :: IsRecycleBinPath(rel) ==> SamePlace(t, plan.target + rel, u, plan.target + rel)) <==> seen
  {
    hide Walked, HasExcludedFile;
    var bin := Recycle.BIN;
    WalkedIff(bin, plan.exclude);
    BinIsNotProperties();
    assert IsRecycleBinPath(bin);
    assert !Held(plan, t, k, bin);
    forall rel | IsRecycleBinPath(rel) ensures rel != [] && rel != [PROPERTIES] && DeployedAt(plan, t, k, seen, u, rel) {
      assert rel[0] == bin[0];
    }
    assert DeployedAt(plan, t, k, seen, u, bin);
  }
}
