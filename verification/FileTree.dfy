/** A workspace as a tree of paths, and the file system calls the daemon makes on it. A call may fail
    at will; one that succeeds takes effect as a whole, except that removing a tree may stop half way. */
module FileTree {

  type Name = string

  /** A path relative to the workspace root, as its names; [] is the root. */
  type Path = seq<Name>

  type Bytes = seq<bv8>

  /** A file keeps the number it was created under wherever it is moved. */
  datatype Node =
    | Dir
    | File(number: nat, data: Bytes)
    | Manifest(originalPath: Path, isDirectory: bool)
    | Symlink

  type Tree = map<Path, Node>

  function Parent(p: Path): Path
    requires p != []
  {
    p[..|p| - 1]
  }

  predicate HasParent(t: Tree, p: Path)
    requires p != []
  {
    Parent(p) in t && t[Parent(p)] == Dir
  }

  lemma PrefixTransitive(a: Path, b: Path, c: Path)
    ensures a <= b && b <= c ==> a <= c
  {
    if a <= b && b <= c { assert a == b[..|a|] == c[..|a|]; }
  }

  lemma PrefixesCompare(a: Path, b: Path, c: Path)
    ensures a <= c && b <= c ==> a <= b || b <= a
  {
    if a <= c && b <= c {
      if |a| <= |b| { assert a == c[..|a|] == b[..|a|]; } else { assert b == c[..|b|] == a[..|b|]; }
    }
  }

  predicate WellFormed(t: Tree) {
    && [] in t && t[[]] == Dir
    && forall p :: p in t && p != [] ==> Parent(p) in t && t[Parent(p)] == Dir
  }

  lemma {:induction false} AncestorsExist(t: Tree, p: Path, q: Path)
    requires WellFormed(t) && p in t && q <= p
    ensures q in t && (q != p ==> t[q] == Dir)
    decreases |p|
  {
    if q != p {
      assert q <= Parent(p);
      AncestorsExist(t, Parent(p), q);
    }
  }

  /** The file objects of a tree. */
  ghost function Files(t: Tree): set<(nat, Bytes)> {
    set p | p in t && t[p].File? :: (t[p].number, t[p].data)
  }

  /** Where a path goes when src is renamed to dst. */
  function Relocated(p: Path, src: Path, dst: Path): Path {
    if src <= p then dst + p[|src|..] else p
  }

  /** The tree after renaming src to dst; what was at or below dst is gone. */
  function Moved(t: Tree, src: Path, dst: Path): Tree {
    (map p | p in t && !(src <= p) && !(dst <= p) :: t[p])
    + (map q | q in (set p | p in t && src <= p :: dst + p[|src|..]) && src + q[|dst|..] in t :: t[src + q[|dst|..]])
  }

  lemma MovedLookup(t: Tree, src: Path, dst: Path, q: Path)
    ensures q in Moved(t, src, dst) <==>
      if dst <= q then src + q[|dst|..] in t else q in t && !(src <= q)
    ensures q in Moved(t, src, dst) ==>
      Moved(t, src, dst)[q] == if dst <= q then t[src + q[|dst|..]] else t[q]
  {
    if dst <= q {
      var p := src + q[|dst|..];
      assert p[|src|..] == q[|dst|..];
      assert dst + q[|dst|..] == q;
      if p in t { assert q in set p | p in t && src <= p :: dst + p[|src|..]; }
    } else {
      forall p | p in t && src <= p ensures dst + p[|src|..] != q {
        assert dst <= dst + p[|src|..];
      }
    }
  }

  lemma MovedKeepsFiles(t: Tree, src: Path, dst: Path)
    requires forall p :: p in t && dst <= p ==> src <= p || !t[p].File?
    ensures Files(t) <= Files(Moved(t, src, dst))
  {
    forall p | p in t && t[p].File?
      ensures Relocated(p, src, dst) in Moved(t, src, dst) && Moved(t, src, dst)[Relocated(p, src, dst)] == t[p]
    {
      var q := Relocated(p, src, dst);
      MovedLookup(t, src, dst, q);
      if src <= p {
        assert q[|dst|..] == p[|src|..];
        assert src + p[|src|..] == p;
      }
    }
  }

  lemma MovedIsWellFormed(t: Tree, src: Path, dst: Path)
    requires WellFormed(t) && src != [] && dst != [] && src in t
    requires !(src <= dst) && Parent(dst) in t && t[Parent(dst)] == Dir
    ensures WellFormed(Moved(t, src, dst))
  {
    hide Moved;
    var m := Moved(t, src, dst);
    MovedLookup(t, src, dst, []);
    forall q | q in m && q != [] ensures Parent(q) in m && m[Parent(q)] == Dir {
      MovedParent(t, src, dst, q);
    }
  }

  lemma MovedParent(t: Tree, src: Path, dst: Path, q: Path)
    requires WellFormed(t) && src != [] && dst != [] && src in t
    requires !(src <= dst) && Parent(dst) in t && t[Parent(dst)] == Dir
    requires q in Moved(t, src, dst) && q != []
    ensures Parent(q) in Moved(t, src, dst) && Moved(t, src, dst)[Parent(q)] == Dir
  {
    hide Moved;
    MovedLookup(t, src, dst, q);
    MovedLookup(t, src, dst, Parent(q));
    if dst <= q {
      var p := src + q[|dst|..];
      if dst == q {
        PrefixOfParent(src, dst);
        PrefixOfParent(dst, dst);
      } else {
        assert dst <= Parent(q);
        assert Parent(p) == src + Parent(q)[|dst|..];
      }
    } else {
      PrefixOfParent(dst, q);
      PrefixOfParent(src, q);
    }
  }

  lemma PrefixOfParent(q: Path, rel: Path)
    requires rel != []
    ensures q <= rel <==> q == rel || q <= Parent(rel)
  {
    if q <= rel && q != rel { assert q == rel[..|q|] == Parent(rel)[..|q|]; }
  }

  /** Moving away and back to a free place restores the tree. */
  lemma MoveBack(t: Tree, src: Path, dst: Path)
    requires WellFormed(t) && src in t && dst !in t && !(src <= dst) && !(dst <= src)
    ensures Moved(Moved(t, src, dst), dst, src) == t
  {
    var there := Moved(t, src, dst);
    var back := Moved(there, dst, src);
    forall q ensures (q in back <==> q in t) && (q in t ==> back[q] == t[q]) {
      MovedLookup(there, dst, src, q);
      if src <= q {
        var p := dst + q[|src|..];
        MovedLookup(t, src, dst, p);
        assert p[|dst|..] == q[|src|..];
        assert src + q[|src|..] == q;
      } else {
        MovedLookup(t, src, dst, q);
        if q in t && dst <= q { AncestorsExist(t, q, dst); }
      }
    }
  }

  function Without(t: Tree, p: Path): Tree {
    map q | q in t && !(p <= q) :: t[q]
  }

  lemma WithoutIsWellFormed(t: Tree, p: Path)
    requires WellFormed(t) && p != []
    ensures WellFormed(Without(t, p))
  {
    forall q | q in Without(t, p) && q != [] ensures Parent(q) in Without(t, p) {
      assert Parent(q) in t;
      assert p <= Parent(q) ==> p <= q;
    }
  }

  lemma AddIsWellFormed(t: Tree, p: Path, node: Node)
    requires WellFormed(t) && p != [] && Parent(p) in t && t[Parent(p)] == Dir
    requires p in t ==> t[p] != Dir || node == Dir
    ensures WellFormed(t[p := node])
  {
    forall q | q in t[p := node] && q != []
      ensures Parent(q) in t[p := node] && t[p := node][Parent(q)] == Dir
    {
      assert q != p ==> q in t;
    }
  }

  /** Adding a file under a new number, or anything at a free place, keeps the files. */
  lemma AddKeepsFiles(t: Tree, p: Path, node: Node)
    requires p in t ==> !t[p].File? || t[p] == node
    ensures Files(t) <= Files(t[p := node])
  {
    forall q | q in t && t[q].File? ensures t[p := node][q] == t[q] {
    }
  }

  /** The file at p has grown by a prefix of data, and nothing else has changed. */
  ghost predicate PartlyAppended(before: Tree, after: Tree, p: Path, data: Bytes) {
    && p in before && before[p].File? && p in after && after[p].File?
    && after == before[p := after[p]] && after[p].number == before[p].number
    && before[p].data <= after[p].data <= before[p].data + data
  }

  /** A new file at p, with whatever was written before the failure. */
  ghost predicate PartlyCreated(before: Tree, after: Tree, p: Path, number: nat) {
    p !in before && p in after && after[p].File? && after[p].number == number && after == before[p := after[p]]
  }

  // ----- the calls

  datatype Status = Ok | NotExist | Exist | Other

  class Disk {
    var tree: Tree
    var nextNumber: nat
    /** How many calls have failed at will, rather than for what the tree holds. */
    ghost var faults: nat

    ghost predicate Valid()
      reads `tree, `nextNumber
    {
      && WellFormed(tree)
      && forall p :: p in tree && tree[p].File? ==> tree[p].number < nextNumber
    }

    constructor ()
      ensures Valid() && tree == map[[] := Dir]
    {
      tree, nextNumber, faults := map[[] := Dir], 0, 0;
    }

    /** An error of any class: nothing happened. */
    method Fault() returns (status: Status)
      modifies `faults
      ensures status != Ok && faults == old(faults) + 1
    {
      faults := faults + 1;
      if {
        case true => return NotExist;
        case true => return Exist;
        case true => return Other;
      }
    }

    /** Whether a call on an open file fails. */
    method Slip() returns (failed: bool)
      modifies `faults
      ensures faults == old(faults) + if failed then 1 else 0
    {
      failed := *;
      if failed { faults := faults + 1; }
    }

    method Lstat(p: Path) returns (status: Status, node: Node)
      modifies `faults
      ensures status == Ok ==> p in tree && node == tree[p]
      ensures status == NotExist ==> p !in tree
      ensures faults >= old(faults)
      ensures faults == old(faults) ==> status == if p in tree then Ok else NotExist
    {
      if * {
        faults := faults + 1;
        return Other, Dir;
      }
      if p !in tree {
        return NotExist, Dir;
      }
      return Ok, tree[p];
    }

    method Mkdir(p: Path) returns (status: Status)
      requires Valid() && p != []
      modifies `tree, `faults
      ensures Valid()
      ensures status == Ok ==> p !in old(tree) && tree == old(tree)[p := Dir]
      ensures status != Ok ==> tree == old(tree)
      ensures faults >= old(faults)
      ensures faults == old(faults) ==> (status == Ok <==> p !in old(tree) && HasParent(old(tree), p))
      ensures faults == old(faults) ==> (status == Exist <==> p in old(tree))
    {
      if * {
        status := Fault();
        return;
      }
      if p in tree {
        return Exist;
      }
      if !HasParent(tree, p) {
        return NotExist;
      }
      AddIsWellFormed(tree, p, Dir);
      tree := tree[p := Dir];
      return Ok;
    }

    /** Writes a recycle manifest under a name that does not exist. */
    method WriteManifest(p: Path, manifest: Node) returns (status: Status)
      requires Valid() && p != [] && p !in tree && manifest.Manifest?
      modifies `tree, `faults
      ensures Valid()
      ensures status == Ok ==> tree == old(tree)[p := manifest]
      ensures status != Ok ==> tree == old(tree) || tree == old(tree)[p := manifest]
      ensures faults >= old(faults)
      ensures faults == old(faults) ==> (status == Ok <==> HasParent(old(tree), p))
    {
      if * {
        status := Fault();
        return;
      }
      if !HasParent(tree, p) {
        return NotExist;
      }
      AddIsWellFormed(tree, p, manifest);
      tree := tree[p := manifest];
      if * {
        status := Fault();
        return;
      }
      return Ok;
    }

    /** Creates a file under a name not in use and writes data to it; a failed write leaves a prefix. */
    method CreateFile(p: Path, data: Bytes) returns (status: Status)
      requires Valid() && p != []
      modifies this
      ensures Valid()
      ensures status == Ok ==> p !in old(tree) && tree == old(tree)[p := File(old(nextNumber), data)]
      ensures status == Ok ==> nextNumber == old(nextNumber) + 1
      ensures status != Ok ==> tree == old(tree) || PartlyCreated(old(tree), tree, p, old(nextNumber))
      ensures status != Ok && p !in old(tree) && p in tree ==> tree[p].data <= data
      ensures faults >= old(faults)
      ensures faults == old(faults) ==> (status == Ok <==> p !in old(tree) && HasParent(old(tree), p))
    {
      if * {
        status := Fault();
        return;
      }
      if p in tree {
        return Exist;
      }
      if !HasParent(tree, p) {
        return NotExist;
      }
      var n := nextNumber;
      nextNumber := nextNumber + 1;
      if * {
        var written: nat :| written <= |data|;
        AddIsWellFormed(tree, p, File(n, data[..written]));
        tree := tree[p := File(n, data[..written])];
        status := Fault();
        return;
      }
      AddIsWellFormed(tree, p, File(n, data));
      tree := tree[p := File(n, data)];
      return Ok;
    }

    /** Opens a file for reading and writing, created empty if there is none. */
    method Open(p: Path) returns (status: Status, data: Bytes)
      requires Valid() && p != []
      modifies this
      ensures Valid()
      ensures status == Ok ==> p in tree && tree[p].File? && data == tree[p].data
      ensures status == Ok ==> if p in old(tree) then tree == old(tree) else tree == old(tree)[p := File(old(nextNumber), [])]
      ensures status != Ok ==> tree == old(tree) || PartlyCreated(old(tree), tree, p, old(nextNumber))
      ensures status != Ok && p !in old(tree) && p in tree ==> tree[p].data == []
      ensures faults >= old(faults)
      ensures faults == old(faults) ==> (status == Ok <==> if p in old(tree) then old(tree)[p].File? else HasParent(old(tree), p))
    {
      data := [];
      if p !in tree {
        status := CreateFile(p, []);
      } else if * {
        status := Fault();
      } else if !tree[p].File? {
        status := Other;
      } else {
        status, data := Ok, tree[p].data;
      }
    }

    method Read(p: Path) returns (status: Status, data: Bytes)
      modifies `faults
      ensures status == Ok ==> p in tree && tree[p].File? && data == tree[p].data
      ensures faults >= old(faults)
      ensures faults == old(faults) ==> status == if p !in tree then NotExist else if tree[p].File? then Ok else Other
    {
      if * {
        status := Fault();
        return status, [];
      }
      if p !in tree {
        return NotExist, [];
      }
      if !tree[p].File? {
        return Other, [];
      }
      return Ok, tree[p].data;
    }

    /** Adds bytes at the end of a file; a failed write adds a prefix of them. */
    method Append(p: Path, data: Bytes) returns (status: Status)
      requires Valid()
      modifies `tree, `faults
      ensures Valid()
      ensures status == Ok ==>
        && p in old(tree) && old(tree)[p].File?
        && tree == old(tree)[p := File(old(tree)[p].number, old(tree)[p].data + data)]
      ensures status != Ok ==> tree == old(tree) || PartlyAppended(old(tree), tree, p, data)
      ensures faults >= old(faults)
      ensures faults == old(faults) ==> (status == Ok <==> p in old(tree) && old(tree)[p].File?)
    {
      if * {
        status := Fault();
        return;
      }
      if p !in tree {
        return NotExist;
      }
      if !tree[p].File? {
        return Other;
      }
      var written: nat :| written <= |data|;
      if written == |data| {
        assert data[..written] == data;
        status := Ok;
      } else {
        status := Fault();
      }
      if p != [] { AddIsWellFormed(tree, p, File(tree[p].number, tree[p].data + data[..written])); }
      tree := tree[p := File(tree[p].number, tree[p].data + data[..written])];
    }

    /** Renames src to dst; a file at dst is replaced by a file, nothing else is. */
    method Rename(src: Path, dst: Path) returns (status: Status)
      requires Valid() && src != [] && dst != [] && !(src <= dst)
      modifies `tree, `faults
      ensures Valid()
      ensures status == Ok ==>
        && src in old(tree) && tree == Moved(old(tree), src, dst)
        && (dst in old(tree) ==> old(tree)[dst] != Dir && old(tree)[src] != Dir)
      ensures status != Ok ==> tree == old(tree)
      ensures faults >= old(faults)
      ensures faults == old(faults) ==> (status == Ok <==>
        && src in old(tree) && HasParent(old(tree), dst)
        && (dst in old(tree) ==> old(tree)[dst] != Dir && old(tree)[src] != Dir))
    {
      if * {
        status := Fault();
        return;
      }
      if src !in tree || !HasParent(tree, dst) {
        return NotExist;
      }
      if dst in tree && (tree[dst] == Dir || tree[src] == Dir) {
        return Exist;
      }
      MovedIsWellFormed(tree, src, dst);
      tree := Moved(tree, src, dst);
      return Ok;
    }

    /** Moves a file of the same file system, kept elsewhere, to a free name. */
    method MoveIn(p: Path, file: Node) returns (status: Status)
      requires Valid() && p != [] && p !in tree && file.File? && file.number < nextNumber
      modifies `tree, `faults
      ensures Valid()
      ensures status == Ok ==> tree == old(tree)[p := file]
      ensures status != Ok ==> tree == old(tree)
      ensures faults >= old(faults)
      ensures faults == old(faults) ==> (status == Ok <==> HasParent(old(tree), p))
    {
      if * {
        status := Fault();
        return;
      }
      if !HasParent(tree, p) {
        return NotExist;
      }
      AddIsWellFormed(tree, p, file);
      tree := tree[p := file];
      return Ok;
    }

    /** Gives the file at src a second name; fails where that name exists. */
    method Link(src: Path, dst: Path) returns (status: Status)
      requires Valid() && dst != []
      modifies `tree, `faults
      ensures Valid()
      ensures status == Ok ==>
        src in old(tree) && old(tree)[src].File? && dst !in old(tree) && tree == old(tree)[dst := old(tree)[src]]
      ensures status != Ok ==> tree == old(tree)
      ensures faults >= old(faults)
      ensures faults == old(faults) ==> (status == Ok <==>
        src in old(tree) && old(tree)[src].File? && dst !in old(tree) && HasParent(old(tree), dst))
    {
      if * {
        status := Fault();
        return;
      }
      if src !in tree || !tree[src].File? || !HasParent(tree, dst) {
        return NotExist;
      }
      if dst in tree {
        return Exist;
      }
      AddIsWellFormed(tree, dst, tree[src]);
      tree := tree[dst := tree[src]];
      return Ok;
    }

    /** Removes a name that is not a directory. */
    method Remove(p: Path) returns (status: Status)
      requires Valid() && p != []
      modifies `tree, `faults
      ensures Valid()
      ensures status == Ok ==> p in old(tree) && old(tree)[p] != Dir && tree == Without(old(tree), p)
      ensures status != Ok ==> tree == old(tree)
      ensures faults >= old(faults)
      ensures faults == old(faults) ==> (status == Ok <==> p in old(tree) && old(tree)[p] != Dir)
      ensures faults == old(faults) ==> (status == NotExist <==> p !in old(tree))
    {
      if * {
        status := Fault();
        return;
      }
      if p !in tree {
        return NotExist;
      }
      if tree[p] == Dir {
        return Other;
      }
      WithoutIsWellFormed(tree, p);
      tree := Without(tree, p);
      return Ok;
    }

    /** Removes a subtree; on failure an arbitrary part of it may be left. */
    method RemoveAll(p: Path) returns (status: Status)
      requires Valid() && p != []
      modifies `tree, `faults
      ensures Valid()
      ensures status == Ok ==> tree == Without(old(tree), p)
      ensures forall q :: q in tree ==> q in old(tree) && tree[q] == old(tree)[q]
      ensures forall q :: q in old(tree) && !(p <= q) ==> q in tree
      ensures faults >= old(faults)
      ensures faults == old(faults) ==> status == Ok
    {
      if * {
        RemoveSome(p);
        status := Fault();
        return;
      }
      WithoutIsWellFormed(tree, p);
      tree := Without(tree, p);
      return Ok;
    }

    /** Entries go one at a time, a directory only once it is empty, and any may stay behind. */
    method RemoveSome(p: Path)
      requires Valid() && p != []
      modifies `tree
      ensures Valid()
      ensures forall q :: q in tree ==> q in old(tree) && tree[q] == old(tree)[q]
      ensures forall q :: q in old(tree) && !(p <= q) ==> q in tree
    {
      var todo := set q | q in tree && p <= q;
      while todo != {}
        invariant Valid()
        invariant forall q :: q in todo ==> p <= q
        invariant forall q :: q in tree ==> q in old(tree) && tree[q] == old(tree)[q]
        invariant forall q :: q in old(tree) && !(p <= q) ==> q in tree
      {
        var q :| q in todo;
        todo := todo - {q};
        var stays := *;
        if !stays && forall r :: r in tree && q <= r ==> r == q {
          WithoutIsWellFormed(tree, q);
          tree := Without(tree, q);
        }
      }
    }
  }
}
