/**
  The extracted tree and the system calls on it.

  Paths are lists of component names, so that `p <= q` says that `q` is `p` or lies below it.
  Symlinks are followed inside the tree. What a call does is left to `kernel` only when the
  path leads out of the tree. Whether it reports success is left to `kernel` also when the
  call removes the way to the very directory it works on.
 */
module OciTree {
  import opened Wrappers
  import opened Text

  /** How many symlinks one lookup follows. */
  const MAX_LINKS: nat := 40

  datatype Node = FileNode(content: string) | DirectoryNode | SymlinkNode(target: string)

  type Tree = map<Path, Node>

  predicate IsDirectory(tree: Tree, path: Path) {
    path == [] || (path in tree && tree[path].DirectoryNode?)
  }

  /** Every proper ancestor of a path in the tree is a directory of the tree. */
  ghost predicate Grounded(tree: Tree) {
    && [] !in tree
    && forall p, k | p in tree && 0 <= k < |p| :: IsDirectory(tree, p[..k])
  }

  predicate PlainNames(path: Path) {
    forall i | 0 <= i < |path| :: PlainName(path[i])
  }

  // ----- Whiteouts -----

  datatype Whiteout = Opaque(dir: Path) | Erase(victim: Path)

  predicate Hits(w: Whiteout, path: Path) {
    match w
    case Opaque(dir) => dir < path
    case Erase(victim) => victim <= path
  }

  /** The directory whose listing the whiteout edits. */
  function Scope(w: Whiteout): Path {
    match w
    case Opaque(dir) => dir
    case Erase(victim) => if victim == [] then [] else victim[..|victim| - 1]
  }

  function Strip<T>(m: map<Path, T>, w: Whiteout): map<Path, T> {
    map q | q in m && !Hits(w, q) :: m[q]
  }

  // ----- Path resolution -----

  /** Where a walk ends: at a directory, having passed `via`, or why it does not get there. */
  datatype Walked = Missing | Refused | Outside | Reached(dir: Path, via: set<Path>)

  function Along(entry: Path, w: Walked): Walked {
    if w.Reached? then Reached(w.dir, w.via + {entry}) else w
  }

  /** Follows all of `rest` from the directory `at`, symlinks included. */
  function Walk(tree: Tree, at: Path, rest: Path, links: nat): Walked
    decreases links, |rest|
  {
    if rest == [] then
      Reached(at, {})
    else if rest[0] == "" || rest[0] == "." then
      Walk(tree, at, rest[1..], links)
    else if rest[0] == ".." then
      if at == [] then Outside else Walk(tree, at[..|at| - 1], rest[1..], links)
    else if at + [rest[0]] !in tree then
      Missing
    else
      match tree[at + [rest[0]]]
      case FileNode(_) => Refused
      case DirectoryNode => Along(at + [rest[0]], Walk(tree, at + [rest[0]], rest[1..], links))
      case SymlinkNode(target) =>
        if links == 0 then
          Refused
        else if target == "" then
          Missing
        else if target[0] == '/' then
          Outside
        else
          Along(at + [rest[0]], Walk(tree, at, Split(target, '/') + rest[1..], links - 1))
  }

  function WalkTo(tree: Tree, path: Path): Walked {
    Walk(tree, [], path, MAX_LINKS)
  }

  /** What the last name of a path means once the walk to its parent has ended. */
  datatype Spot =
    | Nowhere
    | Stuck
    | Away
    | Vacant(place: Path)
    | Taken(place: Path, via: set<Path>)
    | Itself
    | Above(dir: Path)

  function Locate(tree: Tree, path: Path): Spot
    requires path != []
  {
    var name := path[|path| - 1];
    match WalkTo(tree, path[..|path| - 1])
    case Missing => Nowhere
    case Refused => Stuck
    case Outside => Away
    case Reached(dir, via) =>
      if name == "." then
        Itself
      else if name == ".." then
        if dir == [] then Away else Above(dir[..|dir| - 1])
      else if dir + [name] in tree then
        Taken(dir + [name], via)
      else
        Vacant(dir + [name])
  }

  /** The way to the place leads through something below it. */
  predicate Through(via: set<Path>, place: Path) {
    exists q | q in via :: place < q
  }

  // ----- System calls -----

  datatype Operation = RemoveTree | EmptyDirectory | MakeDirectory | Place(node: Node) | LinkFrom(source: Path)

  type Kernel = (Operation, Tree, Path) -> Option<Tree>

  /**
    A directory whose own path vanishes with its contents is emptied and stays, if the call
    reports success at all.
   */
  function Hollow(kernel: Kernel, tree: Tree, path: Path, dir: Path): Option<Tree> {
    if kernel(RemoveTree, tree, path).Some? then Some(Strip(tree, Opaque(dir))) else None
  }

  /** Removes what the path leads to; nothing there is no error, a last `.` is one. */
  function RemovePath(kernel: Kernel, tree: Tree, path: Path): Option<Tree>
    requires path != []
  {
    match Locate(tree, path)
    case Nowhere => Some(tree)
    case Vacant(_) => Some(tree)
    case Stuck => None
    case Itself => None
    case Away => kernel(RemoveTree, tree, path)
    case Above(dir) => Hollow(kernel, tree, path, dir)
    case Taken(place, via) =>
      if Through(via, place) then Hollow(kernel, tree, path, place) else Some(Strip(tree, Erase(place)))
  }

  /** The directory's entries are removed; those that the way leads through are only emptied. */
  function Emptied(tree: Tree, dir: Path, via: set<Path>): Tree {
    map q | q in tree && (!(dir < q) || (|q| == |dir| + 1 && Through(via, q))) :: tree[q]
  }

  function RemoveContents(kernel: Kernel, tree: Tree, path: Path): Option<Tree> {
    match WalkTo(tree, path)
    case Missing => Some(tree)
    case Refused => None
    case Outside => kernel(EmptyDirectory, tree, path)
    case Reached(dir, via) =>
      if !Through(via, dir) || kernel(EmptyDirectory, tree, path).Some? then Some(Emptied(tree, dir, via)) else None
  }

  function Removal(kernel: Kernel, tree: Tree, w: Whiteout): Option<Tree>
    requires w.Erase? ==> w.victim != []
  {
    match w
    case Opaque(dir) => RemoveContents(kernel, tree, dir)
    case Erase(victim) => RemovePath(kernel, tree, victim)
  }

  /** A path that cannot be made is accepted if it leads to a directory. */
  function Existing(kernel: Kernel, tree: Tree, path: Path): Option<Tree> {
    match WalkTo(tree, path)
    case Missing => None
    case Refused => None
    case Outside => kernel(MakeDirectory, tree, path)
    case Reached(_, _) => Some(tree)
  }

  function MakeDirectoryAt(kernel: Kernel, tree: Tree, path: Path): Option<Tree>
    requires path != []
  {
    match Locate(tree, path)
    case Vacant(place) => Some(tree[place := DirectoryNode])
    case Away => kernel(MakeDirectory, tree, path)
    case _ => Existing(kernel, tree, path)
  }

  /** Makes a directory, and its ancestors first if one of them is missing. */
  function CreateDirectories(kernel: Kernel, tree: Tree, path: Path): Option<Tree>
    requires path != []
    decreases |path|
  {
    if Locate(tree, path).Nowhere? && |path| > 1 then
      var parents :- CreateDirectories(kernel, tree, path[..|path| - 1]);
      MakeDirectoryAt(kernel, parents, path)
    else
      MakeDirectoryAt(kernel, tree, path)
  }

  /** Creates a file, symlink or hard link where nothing is; a symlink needs a target. */
  function CreateNew(kernel: Kernel, tree: Tree, path: Path, node: Node): Option<Tree>
    requires path != []
  {
    if node == SymlinkNode("") then
      None
    else
      match Locate(tree, path)
      case Vacant(place) => Some(tree[place := node])
      case Away => kernel(Place(node), tree, path)
      case _ => None
  }

  function CreateLink(kernel: Kernel, tree: Tree, source: Path, path: Path): Option<Tree>
    requires path != [] && source != []
  {
    match Locate(tree, source)
    case Taken(place, _) => if tree[place].DirectoryNode? then None else CreateNew(kernel, tree, path, tree[place])
    case Away => kernel(LinkFrom(source), tree, path)
    case _ => None
  }

  // ----- Where a whiteout leads -----

  /** The lookup of the whiteout's path fails, or it removes a directory by the name `.`. */
  predicate Blocked(tree: Tree, w: Whiteout) {
    match w
    case Opaque(dir) => WalkTo(tree, dir).Refused?
    case Erase(victim) => victim != [] && (Locate(tree, victim).Stuck? || Locate(tree, victim).Itself?)
  }

  /** The whiteout removes something at a place other than the one it names. */
  predicate Reaches(tree: Tree, w: Whiteout) {
    match w
    case Opaque(dir) =>
      var end := WalkTo(tree, dir);
      end.Reached? && end.dir != dir && exists q | q in tree :: end.dir < q
    case Erase(victim) =>
      && victim != []
      && var spot := Locate(tree, victim);
      spot.Above? || (spot.Taken? && spot.place != victim)
  }

  /** The whiteout leads out of the tree. */
  predicate Leaves(tree: Tree, w: Whiteout) {
    match w
    case Opaque(dir) => WalkTo(tree, dir).Outside?
    case Erase(victim) => victim != [] && Locate(tree, victim).Away?
  }

  // ----- Walks in a grounded tree -----

  lemma {:induction false} WalkStays(tree: Tree, at: Path, rest: Path, links: nat)
    requires Grounded(tree) && IsDirectory(tree, at)
    ensures var end := Walk(tree, at, rest, links);
            end.Reached? ==> IsDirectory(tree, end.dir) && end.via <= tree.Keys
    decreases links, |rest|
  {
    if rest == [] {
    } else if rest[0] == "" || rest[0] == "." {
      WalkStays(tree, at, rest[1..], links);
    } else if rest[0] == ".." {
      if at != [] {
        WalkStays(tree, at[..|at| - 1], rest[1..], links);
      }
    } else {
      var next := at + [rest[0]];
      if next in tree && tree[next].DirectoryNode? {
        WalkStays(tree, next, rest[1..], links);
      } else if next in tree && tree[next].SymlinkNode? && links > 0 {
        WalkStays(tree, at, Split(tree[next].target, '/') + rest[1..], links - 1);
      }
    }
  }

  /** Unless the way leads through its entries, a directory is emptied of all of them. */
  lemma EmptiedByName(tree: Tree, dir: Path, via: set<Path>)
    requires !Through(via, dir)
    ensures Emptied(tree, dir, via) == Strip(tree, Opaque(dir))
  {
    forall q | dir < q
      ensures !Through(via, q)
    {
      assert forall v | v in via && q < v :: dir < v;
    }
  }

  /** Emptying a directory that has entries removes one of them or something below them. */
  lemma EmptyingRemoves(tree: Tree, dir: Path, via: set<Path>, q: Path) returns (gone: Path)
    requires via <= tree.Keys && q in tree && dir < q
    ensures gone in tree && gone !in Emptied(tree, dir, via)
  {
    gone := q;
    if |q| == |dir| + 1 && Through(via, q) {
      gone :| gone in via && q < gone;
    }
  }

  predicate FileAt(tree: Tree, path: Path) {
    path in tree && tree[path].FileNode?
  }

  predicate SymlinkAt(tree: Tree, path: Path) {
    path in tree && tree[path].SymlinkNode?
  }

  /** Without symlinks on the way, a walk goes by name. */
  lemma {:induction false} WalkByName(tree: Tree, path: Path, k: nat, links: nat)
    requires Grounded(tree) && PlainNames(path) && k <= |path| && IsDirectory(tree, path[..k])
    requires forall j | k < j <= |path| :: !SymlinkAt(tree, path[..j])
    ensures var end := Walk(tree, path[..k], path[k..], links);
            && (end.Refused? <==> exists j | k < j <= |path| :: FileAt(tree, path[..j]))
            && (end.Reached? <==> IsDirectory(tree, path))
            && (end.Reached? ==> end.dir == path && forall q | q in end.via :: q <= path)
            && !end.Outside?
    decreases |path| - k
  {
    if k == |path| {
      assert path[..k] == path;
    } else {
      var next := path[..k + 1];
      assert path[k..][0] == path[k] && path[k..][1..] == path[k + 1..] && path[..k] + [path[k]] == next;
      assert PlainName(path[k]) && !SymlinkAt(tree, next);
      if next in tree {
        if tree[next].DirectoryNode? {
          WalkByName(tree, path, k + 1, links);
        } else {
          assert FileAt(tree, next);
          NoneBelow(tree, path, k + 1);
        }
      } else {
        forall j | k < j <= |path|
          ensures path[..j] !in tree
        {
          NoneBelow(tree, path[..j], k + 1);
          assert path[..j][..k + 1] == next;
        }
        assert path[..|path|] == path;
      }
    }
  }

  /** Whatever lies at or below a prefix shows that the prefix is there, and a directory if below. */
  lemma NoneBelow(tree: Tree, path: Path, k: nat)
    requires Grounded(tree) && 0 < k <= |path|
    ensures path in tree ==> path[..k] in tree
    ensures path in tree && k < |path| ==> IsDirectory(tree, path[..k])
    ensures path[..k] in tree && !IsDirectory(tree, path[..k]) ==> !IsDirectory(tree, path)
  {
    if k == |path| {
      assert path[..k] == path;
    } else if path in tree {
      assert IsDirectory(tree, path[..k]);
    }
  }

  /** A directory of the tree is reached by name. */
  lemma WalkDirect(tree: Tree, path: Path)
    requires Grounded(tree) && PlainNames(path) && IsDirectory(tree, path)
    ensures var end := WalkTo(tree, path);
            end.Reached? && end.dir == path && forall q | q in end.via :: q <= path
  {
    forall j | 0 < j <= |path|
      ensures !SymlinkAt(tree, path[..j])
    {
      assert path[..|path|] == path;
      assert j < |path| ==> IsDirectory(tree, path[..j]);
    }
    assert path[0..] == path;
    WalkByName(tree, path, 0, MAX_LINKS);
  }

  /** Without symlinks on its way, a whiteout of a plain name is blocked by a file and nothing else. */
  lemma BlockedIffFile(tree: Tree, w: Whiteout)
    requires Grounded(tree) && PlainNames(Scope(w))
    requires w.Erase? ==> w.victim != [] && PlainName(w.victim[|w.victim| - 1])
    requires forall j | 0 < j <= |Scope(w)| :: !SymlinkAt(tree, Scope(w)[..j])
    ensures Blocked(tree, w) <==> exists j | 0 < j <= |Scope(w)| :: FileAt(tree, Scope(w)[..j])
  {
    assert Scope(w)[0..] == Scope(w);
    WalkByName(tree, Scope(w), 0, MAX_LINKS);
  }
}
