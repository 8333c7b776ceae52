/**
  The builder for inline trees: entries are checked and sorted, then written into an empty
  staging directory. Paths below the staging directory are lists of component names.
 */
module TreeBuilder {
  import opened Wrappers
  import opened Text
  import opened Order

  datatype Content = File(text: string, executable: bool) | Dir | Symlink(target: string)

  /** An entry as declared, and after its path has been checked. */
  datatype Declared = Declared(path: string, content: Content)

  datatype Entry = Entry(path: Path, content: Content)

  // ----- Checking paths -----

  /**
    The components of an entry path. Only a leading `.` is refused: the component iterator
    drops the others, so `a/./b` is read as `a/b`.
   */
  function ValidateRelPath(path: string): (r: Option<Path>)
    ensures r.Some? ==> r.value != [] && forall i | 0 <= i < |r.value| :: PlainName(r.value[i])
  {
    var parts := Split(path, '/');
    if path == "" || path[0] == '/' || "" in parts || '\\' in path then
      None
    else if parts[0] == "." || ".." in parts then
      None
    else
      Some(Components(path))
  }

  /** What the checks other than those for dots ask of a path. */
  predicate AcceptableButForDots(path: string) {
    && path != "" && path[0] != '/' && '\\' !in path
    && "" !in Split(path, '/') && ".." !in Split(path, '/')
  }

  /** A path with dots is refused if and only if it begins with one; otherwise they are dropped. */
  lemma DotsRefusedIffLeading(path: string)
    requires AcceptableButForDots(path) && "." in Split(path, '/')
    ensures ValidateRelPath(path).None? <==> Split(path, '/')[0] == "."
    ensures ValidateRelPath(path).Some? ==> |ValidateRelPath(path).value| < |Split(path, '/')|
  {
    DotsShorten(Split(path, '/'));
  }

  lemma {:induction false} DotsShorten(parts: seq<string>)
    requires "" !in parts
    ensures |Named(parts)| <= |parts|
    ensures "." in parts <==> |Named(parts)| < |parts|
  {
    if parts != [] {
      DotsShorten(parts[1..]);
    }
  }

  /** An interior dot is not refused, although the message for dots says so. */
  lemma InteriorDotIsDropped(a: string, b: string)
    requires PlainName(a) && PlainName(b) && '/' !in a + b && '\\' !in a + b
    ensures ValidateRelPath(a + "/" + ("." + "/" + b)) == Some([a, b])
  {
    var inner := "." + "/" + b;
    var path := a + "/" + inner;
    SplitSingle(b, '/');
    SplitFirst(".", b, '/');
    SplitFirst(a, inner, '/');
    assert Split(path, '/') == [a, ".", b];
    NamedSkipsDot(a, b);
    InteriorDotIsClean(a, b);
  }

  lemma InteriorDotIsClean(a: string, b: string)
    requires a != "" && '/' !in a && '\\' !in a + b
    ensures var path := a + "/" + ("." + "/" + b); path[0] != '/' && '\\' !in path
  {
    assert a[0] in a;
    var path := a + "/" + ("." + "/" + b);
    forall i | 0 <= i < |path|
      ensures path[i] != '\\'
    {
      assert path[i] in a + b || path[i] == '/' || path[i] == '.';
    }
  }

  lemma NamedSkipsDot(a: string, b: string)
    requires PlainName(a) && PlainName(b)
    ensures Named([a, ".", b]) == [a, b]
  {
    assert [a, ".", b][1..] == [".", b] && [".", b][1..] == [b] && [b][1..] == [];
    assert Named([b]) == [b];
    assert Named([".", b]) == [b];
    assert [a] + [b] == [a, b];
  }

  function Check(declared: Declared): Option<Entry> {
    if declared.content.Symlink? && declared.content.target == "" then
      None
    else
      var path :- ValidateRelPath(declared.path);
      Some(Entry(path, declared.content))
  }

  function CheckAll(declared: seq<Declared>): (r: Option<seq<Entry>>)
    ensures r.Some? <==> forall i | 0 <= i < |declared| :: Check(declared[i]).Some?
    ensures r.Some? ==> |r.value| == |declared|
    ensures r.Some? ==> forall i | 0 <= i < |declared| :: r.value[i] == Check(declared[i]).value
  {
    if declared == [] then
      Some([])
    else
      var first := Check(declared[0]);
      var rest := CheckAll(declared[1..]);
      assert forall i | 1 <= i < |declared| :: declared[i] == declared[1..][i - 1];
      if first.None? || rest.None? then None else Some([first.value] + rest.value)
  }

  // ----- Conflicts -----

  predicate Distinct(entries: seq<Entry>) {
    forall i, j | 0 <= i < j < |entries| :: entries[i].path != entries[j].path
  }

  /** A file or symlink that would have to be a directory for the path. */
  predicate Above(entry: Entry, path: Path) {
    !entry.content.Dir? && entry.path < path
  }

  predicate Compatible(entries: seq<Entry>) {
    forall i, j | 0 <= i < |entries| && 0 <= j < |entries| :: !Above(entries[i], entries[j].path)
  }

  predicate PlainEntries(entries: seq<Entry>) {
    forall i | 0 <= i < |entries| :: entries[i].path != []
  }

  predicate Buildable(entries: seq<Entry>) {
    entries != [] && PlainEntries(entries) && Distinct(entries) && Compatible(entries)
  }

  predicate EntryBelow(x: Entry, y: Entry) {
    TextBelow(Join(x.path, '/'), Join(y.path, '/'))
  }

  // Distinctness and compatibility do not depend on the order of entries.

  lemma {:induction false} CountAtLeastTwo(s: seq<Entry>, i: nat, j: nat)
    requires i < j < |s| && s[i] == s[j]
    ensures multiset(s)[s[i]] >= 2
  {
    assert s == s[..j] + [s[j]] + s[j + 1..];
    assert s[..j][i] == s[i];
    assert s[i] in multiset(s[..j]);
  }

  lemma DistinctPermutes(s: seq<Entry>, t: seq<Entry>)
    requires multiset(s) == multiset(t) && Distinct(s)
    ensures Distinct(t)
  {
    forall i, j | 0 <= i < j < |t|
      ensures t[i].path != t[j].path
    {
      assert t[i] in multiset(s) && t[j] in multiset(s);
      var a :| 0 <= a < |s| && s[a] == t[i];
      var b :| 0 <= b < |s| && s[b] == t[j];
      if t[i] == t[j] {
        CountAtLeastTwo(t, i, j);
        OnceOnly(s, a);
      }
    }
  }

  lemma {:induction false} OnceOnly(s: seq<Entry>, a: nat)
    requires a < |s| && Distinct(s)
    ensures multiset(s)[s[a]] == 1
  {
    var left, right := s[..a], s[a + 1..];
    assert s == left + [s[a]] + right;
    assert s[a] !in left && s[a] !in right;
  }

  lemma CompatiblePermutes(s: seq<Entry>, t: seq<Entry>)
    requires multiset(s) == multiset(t) && Compatible(s)
    ensures Compatible(t)
  {
    forall i, j | 0 <= i < |t| && 0 <= j < |t|
      ensures !Above(t[i], t[j].path)
    {
      assert t[i] in multiset(s) && t[j] in multiset(s);
      var a :| 0 <= a < |s| && s[a] == t[i];
      var b :| 0 <= b < |s| && s[b] == t[j];
    }
  }

  /** Checks, sorts and rejects duplicates and conflicts; succeeds exactly for buildable entries. */
  method NormalizeEntries(declared: seq<Declared>) returns (r: Option<seq<Entry>>)
    ensures r.Some? <==> CheckAll(declared).Some? && Buildable(CheckAll(declared).value)
    ensures r.Some? ==> Buildable(r.value) && multiset(r.value) == multiset(CheckAll(declared).value)
    ensures r.Some? ==> Sorted(EntryBelow, r.value)
  {
    if declared == [] {
      return None;
    }
    var checked := CheckAll(declared);
    if checked.None? {
      return None;
    }
    var entries := Sort(EntryBelow, checked.value);
    SortedByText(checked.value);
    PermutationFacts(checked.value, entries);
    var kinds := KindsByPath(entries);
    if kinds.None? {
      return None;
    }
    var ok := ConflictFree(entries, kinds.value);
    if !ok {
      return None;
    }
    return Some(entries);
  }

  method ConflictFree(entries: seq<Entry>, kinds: map<Path, Content>) returns (ok: bool)
    requires Records(kinds, entries) && PlainEntries(entries)
    ensures ok <==> Compatible(entries)
  {
    for i := 0 to |entries|
      invariant forall j, k | 0 <= j < i && 0 <= k < |entries| :: !Above(entries[k], entries[j].path)
    {
      ok := AncestorsOk(entries, kinds, entries[i].path);
      if !ok {
        var k :| 0 <= k < |entries| && Above(entries[k], entries[i].path);
        return;
      }
      forall k | 0 <= k < |entries|
        ensures !Above(entries[k], entries[i].path)
      {
      }
    }
    return true;
  }

  /** The map holds the content of each entry under its path, and nothing else. */
  ghost predicate Records(kinds: map<Path, Content>, entries: seq<Entry>) {
    && (forall i | 0 <= i < |entries| :: entries[i].path in kinds && kinds[entries[i].path] == entries[i].content)
    && (forall p | p in kinds :: Entry(p, kinds[p]) in entries)
  }

  lemma SortedByText(entries: seq<Entry>)
    ensures Sorted(EntryBelow, Sort(EntryBelow, entries))
  {
    TextBelowIsTotal();
    TotalIsWeak(TextBelow);
    SortSorts(EntryBelow, entries);
  }

  lemma PermutationFacts(s: seq<Entry>, t: seq<Entry>)
    requires multiset(s) == multiset(t)
    ensures |s| == |t|
    ensures Distinct(s) <==> Distinct(t)
    ensures Compatible(s) <==> Compatible(t)
    ensures PlainEntries(s) ==> PlainEntries(t)
  {
    assert |multiset(s)| == |s| && |multiset(t)| == |t|;
    if Distinct(s) { DistinctPermutes(s, t); }
    if Distinct(t) { DistinctPermutes(t, s); }
    if Compatible(s) { CompatiblePermutes(s, t); }
    if Compatible(t) { CompatiblePermutes(t, s); }
    if PlainEntries(s) {
      forall i | 0 <= i < |t|
        ensures t[i].path != []
      {
        assert t[i] in multiset(s);
      }
    }
  }

  /** The kind of each path; none when a path occurs twice. */
  method KindsByPath(entries: seq<Entry>) returns (r: Option<map<Path, Content>>)
    ensures r.Some? <==> Distinct(entries)
    ensures r.Some? ==> Records(r.value, entries)
  {
    var kinds: map<Path, Content> := map[];
    for i := 0 to |entries|
      invariant Distinct(entries[..i])
      invariant forall k | 0 <= k < i :: entries[k].path in kinds && kinds[entries[k].path] == entries[k].content
      invariant forall p | p in kinds :: Entry(p, kinds[p]) in entries[..i]
    {
      var path := entries[i].path;
      if path in kinds {
        var k :| 0 <= k < i && entries[..i][k] == Entry(path, kinds[path]);
        assert entries[k].path == entries[i].path;
        return None;
      }
      assert entries[..i + 1] == entries[..i] + [entries[i]];
      kinds := kinds[path := entries[i].content];
    }
    assert entries[..|entries|] == entries;
    return Some(kinds);
  }

  /** Whether every recorded proper ancestor of the path is a directory. */
  method AncestorsOk(entries: seq<Entry>, kinds: map<Path, Content>, path: Path) returns (ok: bool)
    requires Records(kinds, entries)
    requires PlainEntries(entries) && path != []
    ensures ok <==> forall k | 0 <= k < |entries| :: !Above(entries[k], path)
  {
    for n := 1 to |path|
      invariant forall m | 1 <= m < n :: path[..m] in kinds ==> kinds[path[..m]].Dir?
    {
      var ancestor := path[..n];
      if ancestor in kinds && !kinds[ancestor].Dir? {
        var k :| 0 <= k < |entries| && entries[k] == Entry(ancestor, kinds[ancestor]);
        assert Above(entries[k], path);
        return false;
      }
    }
    forall k | 0 <= k < |entries|
      ensures !Above(entries[k], path)
    {
      var m := |entries[k].path|;
      assert entries[k].path < path ==> path[..m] == entries[k].path;
    }
    return true;
  }

  // ----- The staged tree -----

  datatype Node = FileNode(text: string, executable: bool) | DirNode | LinkNode(target: string)

  type Tree = map<Path, Node>

  predicate DirectoryAt(tree: Tree, path: Path) {
    path == [] || (path in tree && tree[path].DirNode?)
  }

  function Parent(path: Path): Path
    requires path != []
  {
    path[..|path| - 1]
  }

  function CreateDir(tree: Tree, path: Path): Option<Tree>
    requires path != []
  {
    if path in tree || !DirectoryAt(tree, Parent(path)) then None else Some(tree[path := DirNode])
  }

  function WriteNew(tree: Tree, path: Path, node: Node): Option<Tree>
    requires path != []
  {
    if path in tree || !DirectoryAt(tree, Parent(path)) then None else Some(tree[path := node])
  }

  /** The directories that the entries need: their proper ancestors, and directory entries. */
  ghost predicate Needed(entries: seq<Entry>, path: Path) {
    exists i | 0 <= i < |entries| :: NeededBy(entries[i], path)
  }

  predicate NeededBy(entry: Entry, path: Path) {
    path != [] && (path < entry.path || (path == entry.path && entry.content.Dir?))
  }

  function NodeOf(content: Content): Node {
    match content
    case File(text, executable) => FileNode(text, executable)
    case Dir => DirNode
    case Symlink(target) => LinkNode(target)
  }

  /** The tree holds the needed directories and the first `n` entries, and nothing else. */
  ghost predicate Holds(tree: Tree, entries: seq<Entry>, n: nat)
    requires n <= |entries|
  {
    && (forall p :: p in tree && tree[p].DirNode? <==> Needed(entries, p))
    && (forall i | 0 <= i < n && !entries[i].content.Dir? ::
          entries[i].path in tree && tree[entries[i].path] == NodeOf(entries[i].content))
    && (forall p | p in tree && !tree[p].DirNode? :: exists i | 0 <= i < n :: entries[i].path == p)
  }

  /** Adds the proper ancestors of a path, from the top. */
  method AddParentDirectories(path: Path, directories: set<Path>) returns (r: set<Path>)
    ensures forall p :: p in r <==> p in directories || (p != [] && p < path)
  {
    r := directories;
    var n := 0;
    while n + 1 < |path|
      invariant n == 0 || n < |path|
      invariant forall p :: p in r <==> p in directories || (p != [] && p < path && |p| <= n)
    {
      n := n + 1;
      ghost var before := r;
      r := r + {path[..n]};
      forall p
        ensures p in r <==> p in directories || (p != [] && p < path && |p| <= n)
      {
        assert |p| == n && p < path ==> p == path[..n];
      }
    }
  }

  method CollectDirectories(entries: seq<Entry>) returns (directories: set<Path>)
    requires PlainEntries(entries)
    ensures forall p :: p in directories <==> Needed(entries, p)
  {
    directories := {};
    for i := 0 to |entries|
      invariant forall p :: p in directories <==> Needed(entries[..i], p)
    {
      ghost var before := directories;
      directories := AddParentDirectories(entries[i].path, directories);
      if entries[i].content.Dir? {
        directories := directories + {entries[i].path};
      }
      forall p
        ensures p in directories <==> Needed(entries[..i + 1], p)
      {
        NeededGrows(entries, i, p);
        assert p in before <==> Needed(entries[..i], p);
      }
    }
    assert entries[..|entries|] == entries;
  }

  lemma NeededGrows(entries: seq<Entry>, i: nat, p: Path)
    requires i < |entries|
    ensures Needed(entries[..i + 1], p) <==> Needed(entries[..i], p) || NeededBy(entries[i], p)
  {
    var short, long := entries[..i], entries[..i + 1];
    if Needed(long, p) {
      var k :| 0 <= k < |long| && NeededBy(long[k], p);
      assert k < i ==> short[k] == long[k];
    }
    if Needed(short, p) {
      var k :| 0 <= k < |short| && NeededBy(short[k], p);
      assert long[k] == short[k];
    }
    if NeededBy(entries[i], p) {
      assert long[i] == entries[i];
    }
  }

  /** Lists the elements of a set, each once, in some order. */
  method Enumerate(paths: set<Path>) returns (list: seq<Path>)
    ensures forall p :: p in list <==> p in paths
    ensures forall i, j | 0 <= i < j < |list| :: list[i] != list[j]
  {
    list := [];
    var rest := paths;
    while rest != {}
      invariant rest <= paths
      invariant forall p :: p in list <==> p in paths && p !in rest
      invariant forall i, j | 0 <= i < j < |list| :: list[i] != list[j]
    {
      var p :| p in rest;
      list := list + [p];
      rest := rest - {p};
    }
  }

  predicate Shallower(x: Path, y: Path) {
    |x| < |y|
  }

  /** Closed under parents: what is needed has its parent needed. */
  lemma NeededHasParent(entries: seq<Entry>, p: Path)
    requires Needed(entries, p)
    ensures p != [] && (Parent(p) == [] || Needed(entries, Parent(p)))
  {
    var i :| 0 <= i < |entries| && NeededBy(entries[i], p);
    if Parent(p) != [] {
      assert Parent(p) < entries[i].path;
      assert NeededBy(entries[i], Parent(p));
    }
  }

  /** Depth order puts every needed directory after its parent. */
  lemma ParentComesEarlier(entries: seq<Entry>, order: seq<Path>, i: nat)
    requires forall p :: p in order <==> Needed(entries, p)
    requires Sorted(Shallower, order) && i < |order|
    ensures order[i] != [] && (Parent(order[i]) == [] || Parent(order[i]) in order[..i])
  {
    assert order[i] in order;
    NeededHasParent(entries, order[i]);
    if Parent(order[i]) != [] {
      var k :| 0 <= k < |order| && order[k] == Parent(order[i]);
      assert k >= i ==> k == i || !Shallower(order[k], order[i]);
      assert order[..i][k] == order[k];
    }
  }

  /** Creates each directory once, after its parent; no creation fails. */
  method CreateDirectories(entries: seq<Entry>, order: seq<Path>) returns (r: Option<Tree>)
    requires forall p :: p in order <==> Needed(entries, p)
    requires forall i, j | 0 <= i < j < |order| :: order[i] != order[j]
    requires Sorted(Shallower, order)
    ensures r.Some? && Holds(r.value, entries, 0)
  {
    var tree: Tree := map[];
    for i := 0 to |order|
      invariant forall p :: p in tree <==> p in order[..i]
      invariant forall p | p in tree :: tree[p].DirNode?
    {
      ParentComesEarlier(entries, order, i);
      assert order[i] !in order[..i];
      var created := CreateDir(tree, order[i]);
      if created.None? {
        return None;
      }
      tree := created.value;
      assert order[..i + 1] == order[..i] + [order[i]];
    }
    assert order[..|order|] == order;
    return Some(tree);
  }

  /** Writes files and symlinks; no path collides with another, and every parent is there. */
  method WriteEntries(entries: seq<Entry>, directories: Tree) returns (r: Option<Tree>)
    requires Buildable(entries) && Holds(directories, entries, 0)
    ensures r.Some? && Holds(r.value, entries, |entries|)
  {
    var tree := directories;
    for i := 0 to |entries|
      invariant Holds(tree, entries, i)
    {
      if !entries[i].content.Dir? {
        EntryHasPlace(tree, entries, i);
        ghost var before := tree;
        var written := WriteNew(tree, entries[i].path, NodeOf(entries[i].content));
        if written.None? {
          return None;
        }
        tree := written.value;
        HoldsNext(before, tree, entries, i);
      }
    }
    return Some(tree);
  }

  lemma EntryHasPlace(tree: Tree, entries: seq<Entry>, i: nat)
    requires Buildable(entries) && i < |entries| && Holds(tree, entries, i) && !entries[i].content.Dir?
    ensures entries[i].path !in tree && DirectoryAt(tree, Parent(entries[i].path))
    ensures !Needed(entries, entries[i].path)
  {
    var path := entries[i].path;
    forall k | 0 <= k < |entries|
      ensures !NeededBy(entries[k], path)
    {
      assert !Above(entries[i], entries[k].path);
      assert k != i ==> entries[k].path != path;
    }
    if Parent(path) != [] {
      assert NeededBy(entries[i], Parent(path));
    }
  }

  lemma HoldsNext(before: Tree, after: Tree, entries: seq<Entry>, i: nat)
    requires i < |entries| && Holds(before, entries, i) && Distinct(entries)
    requires !entries[i].content.Dir? && entries[i].path !in before && !Needed(entries, entries[i].path)
    requires after == before[entries[i].path := NodeOf(entries[i].content)]
    ensures Holds(after, entries, i + 1)
  {
    forall p | p in after && !after[p].DirNode?
      ensures exists k | 0 <= k < i + 1 :: entries[k].path == p
    {
      if p == entries[i].path {
        assert entries[i].path == p;
      }
    }
    forall p
      ensures p in after && after[p].DirNode? <==> Needed(entries, p)
    {
      assert p != entries[i].path ==> (p in after <==> p in before);
    }
  }

  /** A buildable tree is always materialised in full: nothing fails on structural grounds. */
  method MaterializeDirectory(entries: seq<Entry>) returns (r: Option<Tree>)
    requires Buildable(entries)
    ensures r.Some? && Holds(r.value, entries, |entries|)
  {
    var directories := CollectDirectories(entries);
    var list := Enumerate(directories);
    var order := Sort(Shallower, list);
    DepthOrder(list);
    r := CreateDirectories(entries, order);
    if r.Some? {
      r := WriteEntries(entries, r.value);
    }
  }

  lemma DepthOrder(list: seq<Path>)
    requires forall i, j | 0 <= i < j < |list| :: list[i] != list[j]
    ensures var order := Sort(Shallower, list);
            && Sorted(Shallower, order)
            && (forall p :: p in order <==> p in list)
            && (forall i, j | 0 <= i < j < |order| :: order[i] != order[j])
  {
    var order := Sort(Shallower, list);
    SortSorts(Shallower, list);
    forall p
      ensures p in order <==> p in list
    {
      SortKeepsElements(Shallower, list, p);
    }
    DistinctPaths(list, order);
  }

  lemma DistinctPaths(s: seq<Path>, t: seq<Path>)
    requires multiset(s) == multiset(t) && forall i, j | 0 <= i < j < |s| :: s[i] != s[j]
    ensures forall i, j | 0 <= i < j < |t| :: t[i] != t[j]
  {
    forall i, j | 0 <= i < j < |t|
      ensures t[i] != t[j]
    {
      assert t[i] in multiset(s);
      var a :| 0 <= a < |s| && s[a] == t[i];
      assert s == s[..a] + [s[a]] + s[a + 1..];
      assert multiset(s)[t[i]] == 1;
      assert t == t[..j] + [t[j]] + t[j + 1..];
      assert t[..j][i] == t[i] && t[i] in multiset(t[..j]);
    }
  }

  datatype Output = FileOutput(text: string, executable: bool) | DirectoryOutput(tree: Tree)

  predicate SingleFile(entries: seq<Entry>) {
    |entries| == 1 && entries[0].content.File? && |entries[0].path| == 1
  }

  /** The whole build: it succeeds exactly for buildable declarations. */
  method BuildTree(declared: seq<Declared>) returns (r: Option<Output>)
    ensures r.Some? <==> CheckAll(declared).Some? && Buildable(CheckAll(declared).value)
    ensures r.Some? && r.value.DirectoryOutput? ==>
              !SingleFile(CheckAll(declared).value) && Holds(r.value.tree, CheckAll(declared).value, |declared|)
    ensures r.Some? && r.value.FileOutput? ==>
              SingleFile(CheckAll(declared).value)
              && CheckAll(declared).value[0].content == File(r.value.text, r.value.executable)
  {
    var normalized := NormalizeEntries(declared);
    if normalized.None? {
      return None;
    }
    var entries := normalized.value;
    SinglePermutes(CheckAll(declared).value, entries);
    if SingleFile(entries) {
      return Some(FileOutput(entries[0].content.text, entries[0].content.executable));
    }
    var tree := MaterializeDirectory(entries);
    HoldsPermutes(tree.value, entries, CheckAll(declared).value);
    return Some(DirectoryOutput(tree.value));
  }

  lemma SinglePermutes(s: seq<Entry>, t: seq<Entry>)
    requires multiset(s) == multiset(t)
    ensures SingleFile(s) <==> SingleFile(t)
    ensures |s| == 1 ==> s == t
  {
    assert |s| == |multiset(s)| == |multiset(t)| == |t|;
    if |s| == 1 {
      assert t[0] in multiset(s);
    }
  }

  lemma HoldsPermutes(tree: Tree, s: seq<Entry>, t: seq<Entry>)
    requires multiset(s) == multiset(t) && Holds(tree, s, |s|)
    ensures Holds(tree, t, |t|)
  {
    forall e
      ensures e in s <==> e in t
    {
      assert e in s <==> e in multiset(s);
      assert e in t <==> e in multiset(t);
    }
    forall p
      ensures Needed(s, p) <==> Needed(t, p)
    {
      NeededMoves(s, t, p);
      NeededMoves(t, s, p);
    }
    forall p | p in tree && !tree[p].DirNode?
      ensures exists i | 0 <= i < |t| :: t[i].path == p
    {
      var i :| 0 <= i < |s| && s[i].path == p;
      assert s[i] in t;
    }
    forall i | 0 <= i < |t| && !t[i].content.Dir?
      ensures t[i].path in tree && tree[t[i].path] == NodeOf(t[i].content)
    {
      assert t[i] in s;
    }
  }

  lemma NeededMoves(s: seq<Entry>, t: seq<Entry>, p: Path)
    requires forall e | e in s :: e in t
    ensures Needed(s, p) ==> Needed(t, p)
  {
    if Needed(s, p) {
      var i :| 0 <= i < |s| && NeededBy(s[i], p);
      assert s[i] in t;
    }
  }
}
