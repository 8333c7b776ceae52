/** The extractor itself: `records` and the file tree are updated in place, entry by entry. */
module OciExtractor {
  import opened Wrappers
  import opened Text
  import opened OciTree
  import opened OciLayer
  import opened Order

  datatype ExtractError = InvalidLayer | Io

  // ----- Path resolution in a consistent state -----

  lemma TreeIsGrounded(s: State)
    requires Consistent(s)
    ensures Grounded(s.tree)
  {
    forall p, k | p in s.tree && 0 <= k < |p|
      ensures IsDirectory(s.tree, p[..k])
    {
      if k > 0 {
        assert DirectoryAt(s.records, p[..k]);
        assert Matches(s.records[p[..k]], s.tree[p[..k]]);
      }
    }
  }

  lemma DirectoriesAgree(s: State, path: Path)
    requires Consistent(s)
    ensures IsDirectory(s.tree, path) <==> path == [] || DirectoryAt(s.records, path)
  {
    assert path in s.records ==> Matches(s.records[path], s.tree[path]);
  }

  /** With nothing but directories above it, a path means itself. */
  lemma LocateByName(s: State, path: Path)
    requires Consistent(s) && path != [] && PlainNames(path) && ParentsOk(s.records, path)
    ensures var spot, parent := Locate(s.tree, path), path[..|path| - 1];
            if path in s.tree then spot.Taken? && spot.place == path && !Through(spot.via, path)
            else if IsDirectory(s.tree, parent) then spot == Vacant(path)
            else spot == Nowhere
  {
    TreeIsGrounded(s);
    var parent := path[..|path| - 1];
    forall j | 0 < j <= |parent|
      ensures !SymlinkAt(s.tree, parent[..j]) && !FileAt(s.tree, parent[..j])
    {
      assert parent[..j] == path[..j];
      DirectoriesAgree(s, path[..j]);
    }
    assert parent[0..] == parent;
    WalkByName(s.tree, parent, 0, MAX_LINKS);
    assert parent + [path[|path| - 1]] == path;
    assert path in s.tree ==> IsDirectory(s.tree, parent);
  }

  /** Nothing lies below a path that is not recorded. */
  lemma NothingBelow<T>(records: map<Path, Record>, m: map<Path, T>, path: Path)
    requires Rooted(records) && m.Keys == records.Keys && path != [] && path !in records
    ensures Strip(m, Erase(path)) == m && Strip(m, Opaque(path)) == m
  {
    forall q | q in m
      ensures !(path <= q)
    {
      assert q in records;
      if |path| <= |q| {
        assert q == q[..|q|];
        assert |path| < |q| ==> DirectoryAt(records, q[..|path|]);
        assert path != q[..|path|];
      }
    }
  }

  predicate ParentsOkTo(records: map<Path, Record>, path: Path, n: nat)
    requires n <= |path|
  {
    forall k | 0 < k <= n :: path[..k] in records ==> DirectoryAt(records, path[..k])
  }

  function FillBoth(s: State, path: Path, n: nat): State
    requires n <= |path|
  {
    State(Fill(s.records, path, n, IMPLICIT_RECORD), Fill(s.tree, path, n, DirectoryNode))
  }

  lemma FillIsConsistent(s: State, path: Path, n: nat)
    requires Consistent(s) && n <= |path| && ParentsOkTo(s.records, path, n)
    ensures Consistent(FillBoth(s, path, n))
    ensures ParentsOkTo(FillBoth(s, path, n).records, path, n)
  {
    var filled := FillBoth(s, path, n).records;
    forall p, k | p in filled && 0 < k < |p|
      ensures DirectoryAt(filled, p[..k])
    {
      if p in s.records {
        assert DirectoryAt(s.records, p[..k]);
      } else {
        assert p[..k] == path[..k] && path[..k] in Prefixes(path, n);
      }
    }
  }

  lemma FillNext<T>(m: map<Path, T>, path: Path, n: nat, implicit: T)
    requires n < |path|
    ensures var filled := Fill(m, path, n, implicit); var next := path[..n + 1];
            && (next in filled <==> next in m)
            && Fill(m, path, n + 1, implicit) == (if next in m then filled else filled[next := implicit])
            && Fill(filled, next, n + 1, implicit) == Fill(m, path, n + 1, implicit)
  {
    var next := path[..n + 1];
    assert Prefixes(path, n + 1) == Prefixes(path, n) + {next};
    assert forall k | 0 < k <= n + 1 :: next[..k] == path[..k];
    assert next !in Prefixes(path, n);
  }

  // ----- The contract of one step and of a stream -----

  /** The item is a whiteout that removes something at another place, or leads out of the tree. */
  predicate StraysAt(tree: Tree, item: Item)
    requires item.path != []
  {
    ReachesAt(tree, item) || LeavesAt(tree, item)
  }

  predicate ReachesAt(tree: Tree, item: Item)
    requires item.path != []
  {
    MarkOf(item.path).Marks? && Reaches(tree, MarkOf(item.path).whiteout)
  }

  predicate LeavesAt(tree: Tree, item: Item)
    requires item.path != []
  {
    MarkOf(item.path).Marks? && Leaves(tree, MarkOf(item.path).whiteout)
  }

  /**
    What handling one item promises. The records follow `RecordsAfter` whatever the kernel
    does. From a consistent state, unless a whiteout strays, success and the new tree are
    those of `After`. A whiteout that removes something at another place, and succeeds, breaks
    the agreement of records and tree.
   */
  ghost predicate Steps(before: State, item: Item, ok: bool, after: State)
    requires item.path != []
  {
    && (ok ==> Admits(before.records, item) && after.records == RecordsAfter(before.records, item))
    && (Consistent(before) && !StraysAt(before.tree, item) ==>
          && (ok <==> !Fails(before, item))
          && (ok ==> after.tree == TreeAfter(before, item)))
    && (Consistent(before) && ReachesAt(before.tree, item) && !LeavesAt(before.tree, item) && ok ==> !Agree(after))
  }

  function Prepared(s: State, path: Path): State
    requires path != []
  {
    StripState(FillBoth(s, path, |path| - 1), Erase(path))
  }

  lemma StripIsConsistent(s: State, w: Whiteout)
    requires Consistent(s)
    ensures Consistent(StripState(s, w))
  {
    RootedAfterStrip(s.records, w);
  }

  lemma FilledIsReady(s: State, path: Path)
    requires path != [] && Consistent(s) && ParentsOk(s.records, path)
    ensures Consistent(FillBoth(s, path, |path| - 1))
    ensures ParentsOk(FillBoth(s, path, |path| - 1).records, path)
  {
    assert ParentsOkTo(s.records, path, |path| - 1);
    FillIsConsistent(s, path, |path| - 1);
    var filled := FillBoth(s, path, |path| - 1).records;
    assert ParentsOkTo(filled, path, |path| - 1);
  }

  /** Once its parents exist and its old contents are gone, a path can be created. */
  lemma PreparedIsReady(s: State, path: Path)
    requires path != [] && PlainNames(path) && Consistent(s) && ParentsOk(s.records, path)
    ensures Consistent(Prepared(s, path))
    ensures Locate(Prepared(s, path).tree, path) == Vacant(path)
  {
    FilledIsReady(s, path);
    var filled, ready := FillBoth(s, path, |path| - 1), Prepared(s, path);
    StripIsConsistent(filled, Erase(path));
    assert path !in ready.tree;
    assert ParentsOk(ready.records, path);
    LocateByName(ready, path);
    var parent := path[..|path| - 1];
    if |path| > 1 {
      assert parent in Prefixes(path, |path| - 1);
      assert parent in filled.records ==> DirectoryAt(filled.records, parent);
    }
    DirectoriesAgree(ready, parent);
  }

  /** An item that is neither a whiteout nor skipped. */
  predicate Ordinary(item: Item) {
    PlainPath(item.path) && MarkOf(item.path).Plain? && !item.entry.body.OtherBody?
  }

  /** The items of a stream: names are checked, the archive root is skipped. */
  function Items(entries: seq<Entry>): Option<seq<Item>> {
    if entries == [] then
      Some([])
    else
      var front :- Items(entries[..|entries| - 1]);
      var last := entries[|entries| - 1];
      var checked :- Sanitize(last.name);
      if checked.None? then Some(front) else Some(front + [Item(checked.value, last)])
  }

  function Meaning(s: State, entries: seq<Entry>): Option<State> {
    var items :- Items(entries);
    Run(s, items)
  }

  /** No whiteout of the stream strays at the moment it is handled. */
  ghost predicate Straight(s: State, entries: seq<Entry>) {
    StraightTo(s, entries, |entries|)
  }

  predicate StraightTo(s: State, entries: seq<Entry>, n: nat)
    requires n <= |entries|
  {
    n > 0 ==> StraightTo(s, entries, n - 1) && StraightAt(s, entries, n - 1)
  }

  predicate StraightAt(s: State, entries: seq<Entry>, i: nat)
    requires i < |entries|
  {
    var now, checked := Meaning(s, entries[..i]), Sanitize(entries[i].name);
    now.Some? && checked.Some? && checked.value.Some? ==>
      !StraysAt(now.value.tree, Item(checked.value.value, entries[i]))
  }

  /** Entry `i` is a whiteout that leads out of the tree at the moment it is handled. */
  predicate LeavesEntry(s: State, entries: seq<Entry>, i: nat)
    requires i < |entries|
  {
    var now, checked := Meaning(s, entries[..i]), Sanitize(entries[i].name);
    && now.Some? && checked.Some? && checked.value.Some?
    && LeavesAt(now.value.tree, Item(checked.value.value, entries[i]))
  }

  function ImageMeaning(s: State, layers: seq<seq<Entry>>): Option<State> {
    if layers == [] then
      Some(s)
    else
      var before :- ImageMeaning(s, layers[..|layers| - 1]);
      Meaning(before, layers[|layers| - 1])
  }

  ghost predicate StraightLayers(s: State, layers: seq<seq<Entry>>) {
    forall i | 0 <= i < |layers| ::
      ImageMeaning(s, layers[..i]).Some? ==> Straight(ImageMeaning(s, layers[..i]).value, layers[i])
  }

  /** What handling a stream promises: from a consistent state, its meaning. */
  ghost predicate Streams(before: State, entries: seq<Entry>, ok: bool, after: State) {
    Consistent(before) && Straight(before, entries) ==>
      && (ok <==> Meaning(before, entries).Some?)
      && (ok ==> Meaning(before, entries) == Some(after) && Consistent(after))
  }

  /**
    When no whiteout before the last of `n` entries strays, and that entry stays in the tree,
    records and tree agree after it if and only if it does not stray either.
   */
  ghost predicate Ends(before: State, entries: seq<Entry>, n: nat, after: State)
    requires n <= |entries|
  {
    n > 0 && Consistent(before) && StraightTo(before, entries, n - 1) && !LeavesEntry(before, entries, n - 1) ==>
      (Agree(after) <==> StraightTo(before, entries, n))
  }

  /** No whiteout of the layer disturbs an entry before it. */
  predicate Orderly(entries: seq<Entry>) {
    Items(entries).Some? && WhiteoutsComeFirst(Items(entries).value)
  }

  ghost predicate UnblockedEntries(s: State, entries: seq<Entry>) {
    Items(entries).Some? && Unblocked(s, Items(entries).value)
  }

  /** The two-phase meaning of a layer. */
  function Changeset(s: State, entries: seq<Entry>): Option<State> {
    var items :- Items(entries);
    TwoPhase(s, items)
  }

  /** What handling an orderly stream promises: its two-phase meaning, unless a whiteout is blocked. */
  ghost predicate InTwoPhases(before: State, entries: seq<Entry>, ok: bool, after: State) {
    Consistent(before) && Straight(before, entries) && Orderly(entries) ==>
      if UnblockedEntries(before, entries) then
        (ok <==> Changeset(before, entries).Some?) && (ok ==> Changeset(before, entries) == Some(after))
      else
        !ok
  }

  /** `now` is where the first `i` entries lead. */
  ghost predicate Follows(before: State, entries: seq<Entry>, i: nat, now: State)
    requires i <= |entries|
  {
    Consistent(before) && StraightTo(before, entries, i) ==>
      Meaning(before, entries[..i]) == Some(now) && Consistent(now)
  }

  ghost predicate FollowsImage(before: State, layers: seq<seq<Entry>>, i: nat, now: State)
    requires i <= |layers|
  {
    Consistent(before) && StraightLayers(before, layers) ==>
      ImageMeaning(before, layers[..i]) == Some(now) && Consistent(now)
  }

  class Extractor {
    const kernel: Kernel
    var records: map<Path, Record>
    var tree: Tree

    constructor (kernel: Kernel)
      ensures records == map[] && tree == map[] && this.kernel == kernel
    {
      this.kernel := kernel;
      records, tree := map[], map[];
    }

    function Now(): State
      reads this
    {
      State(records, tree)
    }

    method EnsureParentDirectories(path: Path) returns (o: Outcome<ExtractError>)
      requires path != [] && PlainNames(path)
      modifies this
      ensures o.Pass? ==> ParentsOk(old(records), path)
      ensures o.Pass? ==> records == Fill(old(records), path, |path| - 1, IMPLICIT_RECORD)
      ensures old(Consistent(Now())) ==>
                && (o.Pass? <==> ParentsOk(old(records), path))
                && (o.Pass? ==> Now() == FillBoth(old(Now()), path, |path| - 1))
    {
      ghost var before := Now();
      assert Fill(records, path, 0, IMPLICIT_RECORD) == records;
      assert Fill(tree, path, 0, DirectoryNode) == tree;
      for n := 0 to |path| - 1
        invariant ParentsOkTo(before.records, path, n)
        invariant records == Fill(before.records, path, n, IMPLICIT_RECORD)
        invariant Consistent(before) ==> Now() == FillBoth(before, path, n)
      {
        var current := path[..n + 1];
        FillNext(before.records, path, n, IMPLICIT_RECORD);
        FillNext(before.tree, path, n, DirectoryNode);
        if current in records {
          if !records[current].kind.Directory? {
            return Fail(InvalidLayer);
          }
        } else {
          if Consistent(before) {
            FilledNextIsVacant(before, path, n);
          }
          var created := CreateDirectories(kernel, tree, current);
          if created.None? {
            return Fail(Io);
          }
          tree := created.value;
          records := records[current := IMPLICIT_RECORD];
        }
      }
      return Pass;
    }

    method RemoveExistingPath(path: Path) returns (o: Outcome<ExtractError>)
      requires path != [] && PlainNames(path)
      modifies this
      ensures o.Pass? ==> records == Strip(old(records), Erase(path))
      ensures old(Consistent(Now())) && ParentsOk(old(records), path) ==>
                o.Pass? && Now() == StripState(old(Now()), Erase(path))
    {
      if Consistent(Now()) && ParentsOk(records, path) {
        LocateByName(Now(), path);
        if path !in records {
          NothingBelow(records, tree, path);
        }
      }
      var removed := RemovePath(kernel, tree, path);
      if removed.None? {
        return Fail(Io);
      }
      tree := removed.value;
      records := Strip(records, Erase(path));
      return Pass;
    }

    /** Creates the parents of a path and clears the path itself. */
    method Prepare(path: Path) returns (o: Outcome<ExtractError>)
      requires path != [] && PlainNames(path)
      modifies this
      ensures Prepares(old(Now()), path, o.Pass?, Now())
    {
      ghost var before := Now();
      :- EnsureParentDirectories(path);
      if Consistent(before) {
        FilledIsReady(before, path);
      }
      :- RemoveExistingPath(path);
      return Pass;
    }

    method ExtractFile(item: Item) returns (o: Outcome<ExtractError>)
      requires Ordinary(item) && item.entry.body.FileBody?
      modifies this
      ensures Steps(old(Now()), item, o.Pass?, Now())
    {
      ghost var before := Now();
      UnpreparedSteps(before, item);
      :- Prepare(item.path);
      ghost var ready := Now();
      var node := FileNode(item.entry.body.content);
      PlaceSteps(kernel, before, ready, item, node);
      var created := CreateNew(kernel, tree, item.path, node);
      if created.None? {
        return Fail(Io);
      }
      tree := created.value;
      if !OwnerOk(item.entry) {
        return Fail(InvalidLayer);
      }
      records := records[item.path := OwnRecord(item.entry, File, None)];
      return Pass;
    }

    method ExtractSymlink(item: Item) returns (o: Outcome<ExtractError>)
      requires Ordinary(item) && item.entry.body.SymlinkBody?
      modifies this
      ensures Steps(old(Now()), item, o.Pass?, Now())
    {
      ghost var before := Now();
      UnpreparedSteps(before, item);
      :- Prepare(item.path);
      ghost var ready := Now();
      var target := item.entry.body.target;
      if target.None? {
        FailedSteps(before, item);
        return Fail(InvalidLayer);
      }
      var node := SymlinkNode(target.value);
      PlaceSteps(kernel, before, ready, item, node);
      var created := CreateNew(kernel, tree, item.path, node);
      if created.None? {
        return Fail(Io);
      }
      tree := created.value;
      if !OwnerOk(item.entry) {
        return Fail(InvalidLayer);
      }
      records := records[item.path := OwnRecord(item.entry, Symlink, target)];
      return Pass;
    }

    /** Like `Prepare`, but a recorded directory keeps its contents. */
    method PrepareDirectory(item: Item) returns (o: Outcome<ExtractError>)
      requires Ordinary(item) && item.entry.body.DirectoryBody?
      modifies this
      ensures o.Pass? ==> ParentsOk(old(records), item.path)
      ensures o.Pass? ==> records == DirectoryBase(old(Now()), item).records
      ensures old(Consistent(Now())) ==>
                && (o.Pass? <==> ParentsOk(old(records), item.path))
                && (o.Pass? ==> tree == DirectoryBase(old(Now()), item).tree)
    {
      ghost var before := Now();
      :- EnsureParentDirectories(item.path);
      DirectoryChoice(before, item);
      if Consistent(before) {
        FilledIsReady(before, item.path);
      }
      if item.path in records && !records[item.path].kind.Directory? {
        :- RemoveExistingPath(item.path);
      }
      return Pass;
    }

    method ExtractDirectory(item: Item) returns (o: Outcome<ExtractError>)
      requires Ordinary(item) && item.entry.body.DirectoryBody?
      modifies this
      ensures Steps(old(Now()), item, o.Pass?, Now())
    {
      ghost var before := Now();
      UnpreparedSteps(before, item);
      :- PrepareDirectory(item);
      DirectorySteps(kernel, before, Now(), item);
      var created := CreateDirectories(kernel, tree, item.path);
      if created.None? {
        return Fail(Io);
      }
      tree := created.value;
      if !OwnerOk(item.entry) {
        return Fail(InvalidLayer);
      }
      records := records[item.path := OwnRecord(item.entry, Directory, None)];
      return Pass;
    }

    method ExtractHardLink(item: Item) returns (o: Outcome<ExtractError>)
      requires Ordinary(item) && item.entry.body.HardLinkBody?
      modifies this
      ensures Steps(old(Now()), item, o.Pass?, Now())
    {
      ghost var before := Now();
      UnlinkedSteps(before, item);
      var named := LinkTarget(item.entry);
      if named.None? || named.value !in records || !records[named.value].kind.File? {
        return Fail(InvalidLayer);
      }
      var target := named.value;
      var of := records[target];
      if !OwnerOk(item.entry) {
        return Fail(InvalidLayer);
      }
      var link := LinkRecord(records, item.entry, target);
      if link.uid != of.uid || link.gid != of.gid || link.mode != of.mode {
        return Fail(InvalidLayer);
      }
      UnpreparedSteps(before, item);
      :- Prepare(item.path);
      LinkSteps(kernel, before, Now(), item);
      var created := CreateLink(kernel, tree, target, item.path);
      if created.None? {
        return Fail(Io);
      }
      tree := created.value;
      records := records[item.path := link];
      return Pass;
    }

    /** Handles a whiteout; `false` when the item is an ordinary entry. */
    method HandleWhiteout(item: Item) returns (r: Result<bool, ExtractError>)
      requires PlainPath(item.path)
      modifies this
      ensures r.Success? && !r.value ==> MarkOf(item.path).Plain? && Now() == old(Now())
      ensures r.Success? && r.value ==> MarkOf(item.path).Marks? && Steps(old(Now()), item, true, Now())
      ensures r.Failure? ==> !MarkOf(item.path).Plain? && Steps(old(Now()), item, false, Now())
    {
      ghost var before := Now();
      match MarkOf(item.path) {
        case Plain =>
          return Success(false);
        case Malformed =>
          return Failure(InvalidLayer);
        case Marks(w) =>
          WhiteoutSteps(kernel, before, item);
          var left := Removal(kernel, tree, w);
          if left.None? {
            return Failure(Io);
          }
          tree := left.value;
          records := Strip(records, w);
          return Success(true);
      }
    }

    method ExtractEntry(item: Item) returns (o: Outcome<ExtractError>)
      requires PlainPath(item.path)
      modifies this
      ensures Steps(old(Now()), item, o.Pass?, Now())
    {
      var r := HandleWhiteout(item);
      if r.Failure? {
        return Fail(r.error);
      }
      if r.value {
        return Pass;
      }
      match item.entry.body {
        case FileBody(_) => o := ExtractFile(item);
        case DirectoryBody => o := ExtractDirectory(item);
        case SymlinkBody(_) => o := ExtractSymlink(item);
        case HardLinkBody(_) => o := ExtractHardLink(item);
        case OtherBody => o := Pass;
      }
    }

    /** Handles the entries of one layer in order, up to the first failure. */
    method ExtractTarStream(entries: seq<Entry>) returns (o: Outcome<ExtractError>)
      modifies this
      ensures o.Pass? && Rooted(old(records)) ==> Rooted(records)
      ensures Streams(old(Now()), entries, o.Pass?, Now())
      ensures InTwoPhases(old(Now()), entries, o.Pass?, Now())
      ensures o.Pass? ==> Ends(old(Now()), entries, |entries|, Now())
    {
      ghost var before := Now();
      for i := 0 to |entries|
        invariant Rooted(before.records) ==> Rooted(records)
        invariant Follows(before, entries, i, Now())
        invariant Ends(before, entries, i, Now())
      {
        ghost var now := Now();
        var checked := Sanitize(entries[i].name);
        if checked.None? {
          StreamRefuses(before, entries, i, now);
          return Fail(InvalidLayer);
        }
        if checked.value.Some? {
          var item := Item(checked.value.value, entries[i]);
          var handled := ExtractEntry(item);
          StreamStep(before, entries, i, now, handled.Pass?, Now());
          if handled.Fail? {
            StreamInTwoPhases(before, entries, false, Now());
            return handled;
          }
        } else {
          StreamSkips(before, entries, i, now);
        }
      }
      assert entries[..|entries|] == entries;
      StreamInTwoPhases(before, entries, true, Now());
      return Pass;
    }

    /** Applies the layers of an image from the lowest to the topmost. */
    method ExtractLayers(layers: seq<seq<Entry>>) returns (o: Outcome<ExtractError>)
      modifies this
      ensures o.Pass? && Rooted(old(records)) ==> Rooted(records)
      ensures old(Consistent(Now())) && StraightLayers(old(Now()), layers) ==>
                && (o.Pass? <==> ImageMeaning(old(Now()), layers).Some?)
                && (o.Pass? ==> ImageMeaning(old(Now()), layers) == Some(Now()) && Consistent(Now()))
    {
      ghost var before := Now();
      for i := 0 to |layers|
        invariant Rooted(before.records) ==> Rooted(records)
        invariant FollowsImage(before, layers, i, Now())
      {
        ghost var now := Now();
        var handled := ExtractTarStream(layers[i]);
        ImageStep(before, layers, i, now, handled.Pass?, Now());
        if handled.Fail? {
          return handled;
        }
      }
      assert layers[..|layers|] == layers;
      return Pass;
    }
  }

  // ----- Each handler keeps its contract -----

  ghost predicate Prepares(before: State, path: Path, ok: bool, after: State)
    requires path != []
  {
    && (ok ==> ParentsOk(before.records, path) && after.records == Prepared(before, path).records)
    && (Consistent(before) ==>
          && (ok <==> ParentsOk(before.records, path))
          && (ok ==> after.tree == Prepared(before, path).tree))
  }

  /** A failed step keeps its contract when the item fails in a consistent state. */
  lemma FailedSteps(before: State, item: Item)
    requires item.path != [] && (Consistent(before) ==> Fails(before, item))
    ensures forall after :: Steps(before, item, false, after)
  {
  }

  lemma UnpreparedSteps(before: State, item: Item)
    requires Ordinary(item)
    ensures (Consistent(before) ==> !ParentsOk(before.records, item.path)) ==>
              forall after :: Steps(before, item, false, after)
  {
  }

  lemma UnlinkedSteps(before: State, item: Item)
    requires Ordinary(item) && item.entry.body.HardLinkBody?
    ensures !(OwnerOk(item.entry) && LinkOk(before.records, item.entry)) ==>
              forall after :: Steps(before, item, false, after)
  {
  }

  lemma DoneSteps(before: State, item: Item, after: State)
    requires Ordinary(item) && Admits(before.records, item)
    requires after.records == RecordsAfter(before.records, item)
    requires Consistent(before) ==> !Fails(before, item) && after.tree == TreeAfter(before, item)
    ensures Steps(before, item, true, after)
  {
  }

  lemma PlaceSteps(kernel: Kernel, before: State, ready: State, item: Item, node: Node)
    requires Ordinary(item) && Prepares(before, item.path, true, ready)
    requires item.entry.body.FileBody? || (item.entry.body.SymlinkBody? && item.entry.body.target.Some?)
    requires item.entry.body.FileBody? ==> node == FileNode(item.entry.body.content)
    requires item.entry.body.SymlinkBody? ==> node == SymlinkNode(item.entry.body.target.value)
    ensures var created := CreateNew(kernel, ready.tree, item.path, node);
            if created.Some? && OwnerOk(item.entry) then
              var record := RecordFor(before.records, item);
              Steps(before, item, true, State(ready.records[item.path := record], created.value))
            else
              forall after :: Steps(before, item, false, after)
  {
    if Consistent(before) {
      PreparedIsReady(before, item.path);
    }
    var created := CreateNew(kernel, ready.tree, item.path, node);
    if created.Some? && OwnerOk(item.entry) {
      var record := RecordFor(before.records, item);
      DoneSteps(before, item, State(ready.records[item.path := record], created.value));
    } else {
      FailedSteps(before, item);
    }
  }

  /** What a directory entry is added to. */
  function DirectoryBase(s: State, item: Item): State
    requires item.path != []
  {
    if Keeps(s.records, item) then FillBoth(s, item.path, |item.path| - 1) else Prepared(s, item.path)
  }

  lemma DirectoryChoice(s: State, item: Item)
    requires item.path != [] && item.entry.body.DirectoryBody?
    ensures var filled := FillBoth(s, item.path, |item.path| - 1);
            var clash := item.path in filled.records && !filled.records[item.path].kind.Directory?;
            DirectoryBase(s, item) == if clash then StripState(filled, Erase(item.path)) else filled
  {
    FillKeepsLast(s, item.path);
  }

  lemma DirectoryAfter(before: State, item: Item)
    requires Ordinary(item) && item.entry.body.DirectoryBody? && !Fails(before, item)
    ensures var base := DirectoryBase(before, item);
            && RecordsAfter(before.records, item) == base.records[item.path := RecordFor(before.records, item)]
            && TreeAfter(before, item) == base.tree[item.path := DirectoryNode]
  {
  }

  lemma DirectorySteps(kernel: Kernel, before: State, ready: State, item: Item)
    requires Ordinary(item) && item.entry.body.DirectoryBody? && ParentsOk(before.records, item.path)
    requires ready.records == DirectoryBase(before, item).records
    requires Consistent(before) ==> ready.tree == DirectoryBase(before, item).tree
    ensures var created := CreateDirectories(kernel, ready.tree, item.path);
            if created.Some? && OwnerOk(item.entry) then
              var record := RecordFor(before.records, item);
              Steps(before, item, true, State(ready.records[item.path := record], created.value))
            else
              forall after :: Steps(before, item, false, after)
  {
    if Consistent(before) {
      DirectoryIsReady(kernel, before, item.path, Keeps(before.records, item));
      assert CreateDirectories(kernel, ready.tree, item.path) == Some(ready.tree[item.path := DirectoryNode]);
    }
    if OwnerOk(item.entry) {
      assert !Fails(before, item);
      DirectoryAfter(before, item);
    }
    var created := CreateDirectories(kernel, ready.tree, item.path);
    if created.Some? && OwnerOk(item.entry) {
      var record := RecordFor(before.records, item);
      DoneSteps(before, item, State(ready.records[item.path := record], created.value));
    } else {
      FailedSteps(before, item);
    }
  }

  /** In a consistent state a link can be made unless its target was cleared with the path. */
  lemma LinkIsReady(kernel: Kernel, before: State, path: Path, target: Path)
    requires PlainPath(path) && PlainPath(target) && Consistent(before)
    requires KindAt(before.records, target, File) && ParentsOk(before.records, path)
    ensures var ready := Prepared(before, path).tree;
            CreateLink(kernel, ready, target, path)
            == if path <= target then None else Some(ready[path := before.tree[target]])
  {
    PreparedIsReady(before, path);
    LinkSource(before, path, target);
  }

  lemma LinkAfter(before: State, item: Item)
    requires Ordinary(item) && item.entry.body.HardLinkBody? && Admits(before.records, item)
    ensures var target := LinkTarget(item.entry).value;
            && RecordsAfter(before.records, item)
               == Prepared(before, item.path).records[item.path := LinkRecord(before.records, item.entry, target)]
            && (Agree(before) ==> (Fails(before, item) <==> item.path <= target))
            && (!Fails(before, item) ==>
                  TreeAfter(before, item) == Prepared(before, item.path).tree[item.path := before.tree[target]])
  {
  }

  lemma LinkSteps(kernel: Kernel, before: State, ready: State, item: Item)
    requires Ordinary(item) && Prepares(before, item.path, true, ready)
    requires item.entry.body.HardLinkBody? && OwnerOk(item.entry) && LinkOk(before.records, item.entry)
    ensures var target := LinkTarget(item.entry).value;
            var created := CreateLink(kernel, ready.tree, target, item.path);
            if created.Some? then
              var record := LinkRecord(before.records, item.entry, target);
              Steps(before, item, true, State(ready.records[item.path := record], created.value))
            else
              forall after :: Steps(before, item, false, after)
  {
    var target := LinkTarget(item.entry).value;
    assert Admits(before.records, item);
    LinkAfter(before, item);
    if Consistent(before) {
      LinkIsReady(kernel, before, item.path, target);
    }
    var created := CreateLink(kernel, ready.tree, target, item.path);
    if created.Some? {
      var record := LinkRecord(before.records, item.entry, target);
      DoneSteps(before, item, State(ready.records[item.path := record], created.value));
    } else {
      FailedSteps(before, item);
    }
  }

  lemma NextIsVacant(s: State, path: Path, n: nat)
    requires Consistent(s) && n < |path| && PlainNames(path) && ParentsOkTo(s.records, path, n)
    requires path[..n + 1] !in s.records && (n == 0 || path[..n] in s.records)
    ensures Locate(s.tree, path[..n + 1]) == Vacant(path[..n + 1])
  {
    var next := path[..n + 1];
    forall k | 0 < k < |next|
      ensures next[..k] in s.records ==> DirectoryAt(s.records, next[..k])
    {
      assert next[..k] == path[..k];
    }
    LocateByName(s, next);
    assert next[..|next| - 1] == path[..n];
    DirectoriesAgree(s, path[..n]);
  }

  lemma FilledNextIsVacant(s: State, path: Path, n: nat)
    requires Consistent(s) && n < |path| && PlainNames(path) && ParentsOkTo(s.records, path, n)
    requires path[..n + 1] !in s.records
    ensures Locate(FillBoth(s, path, n).tree, path[..n + 1]) == Vacant(path[..n + 1])
  {
    FillIsConsistent(s, path, n);
    assert n > 0 ==> path[..n] in Prefixes(path, n);
    FillNext(s.records, path, n, IMPLICIT_RECORD);
    NextIsVacant(FillBoth(s, path, n), path, n);
  }

  lemma FillKeepsLast(s: State, path: Path)
    requires path != []
    ensures var filled := FillBoth(s, path, |path| - 1);
            && (path in filled.records <==> path in s.records)
            && (path in s.records ==> filled.records[path] == s.records[path])
  {
  }

  /** With its parent present, creating a directory adds only the path itself. */
  lemma CreatesOne(kernel: Kernel, s: State, path: Path)
    requires Consistent(s) && path != [] && PlainNames(path) && ParentsOk(s.records, path)
    requires IsDirectory(s.tree, path[..|path| - 1])
    requires path in s.records ==> DirectoryAt(s.records, path)
    ensures CreateDirectories(kernel, s.tree, path) == Some(s.tree[path := DirectoryNode])
  {
    LocateByName(s, path);
    if path in s.tree {
      DirectoriesAgree(s, path);
      ExistingIsKept(kernel, s, path);
    }
    MakesOne(kernel, s.tree, path);
  }

  lemma ExistingIsKept(kernel: Kernel, s: State, path: Path)
    requires Consistent(s) && path in s.tree && PlainNames(path) && IsDirectory(s.tree, path)
    ensures Existing(kernel, s.tree, path) == Some(s.tree) && s.tree[path := DirectoryNode] == s.tree
  {
    TreeIsGrounded(s);
    WalkDirect(s.tree, path);
  }

  lemma MakesOne(kernel: Kernel, tree: Tree, path: Path)
    requires path != []
    requires Locate(tree, path) == Vacant(path)
             || (Locate(tree, path).Taken? && Existing(kernel, tree, path) == Some(tree[path := DirectoryNode]))
    ensures CreateDirectories(kernel, tree, path) == Some(tree[path := DirectoryNode])
  {
  }

  /** What was filled in above a path is there, and so is its parent. */
  lemma FilledParent(s: State, path: Path)
    requires path != [] && Consistent(s) && ParentsOk(s.records, path)
    ensures IsDirectory(FillBoth(s, path, |path| - 1).tree, path[..|path| - 1])
    ensures IsDirectory(Prepared(s, path).tree, path[..|path| - 1])
  {
    FilledIsReady(s, path);
    var filled, parent := FillBoth(s, path, |path| - 1), path[..|path| - 1];
    assert parent != [] ==> parent in Prefixes(path, |path| - 1);
    assert parent in filled.records ==> DirectoryAt(filled.records, parent);
    DirectoriesAgree(filled, parent);
  }

  /** A directory entry finds its place, kept or prepared. */
  lemma DirectoryIsReady(kernel: Kernel, s: State, path: Path, keep: bool)
    requires path != [] && PlainNames(path) && Consistent(s) && ParentsOk(s.records, path)
    requires keep ==> path in s.records ==> DirectoryAt(s.records, path)
    ensures var tree := if keep then FillBoth(s, path, |path| - 1).tree else Prepared(s, path).tree;
            CreateDirectories(kernel, tree, path) == Some(tree[path := DirectoryNode])
  {
    FilledParent(s, path);
    FilledIsReady(s, path);
    if keep {
      FillKeepsLast(s, path);
      CreatesOne(kernel, FillBoth(s, path, |path| - 1), path);
    } else {
      PreparedIsReady(s, path);
    }
  }

  /** A recorded file is found after preparation, unless it was cleared with the path. */
  lemma LinkSource(s: State, path: Path, target: Path)
    requires path != [] && PlainNames(path) && PlainNames(target) && target != []
    requires KindAt(s.records, target, File) && ParentsOk(s.records, path)
    ensures Consistent(s) ==>
              var spot := Locate(Prepared(s, path).tree, target);
              if path <= target then spot.Nowhere? || spot.Vacant?
              else spot.Taken? && spot.place == target && Prepared(s, path).tree[target] == s.tree[target]
    ensures Consistent(s) ==> s.tree[target].FileNode?
  {
    if Consistent(s) {
      PreparedIsReady(s, path);
      var ready := Prepared(s, path);
      forall k | 0 < k < |target|
        ensures target[..k] in ready.records ==> DirectoryAt(ready.records, target[..k])
      {
        assert DirectoryAt(s.records, target[..k]);
      }
      LocateByName(ready, target);
      assert Matches(s.records[target], s.tree[target]);
    }
  }

  // ----- Whiteouts -----

  /** In a consistent state a whiteout that does not stray removes what it names, or is blocked. */
  lemma WhiteoutSteps(kernel: Kernel, before: State, item: Item)
    requires PlainPath(item.path) && MarkOf(item.path).Marks?
    ensures var w := MarkOf(item.path).whiteout;
            var left := Removal(kernel, before.tree, w);
            if left.Some? then
              Steps(before, item, true, State(Strip(before.records, w), left.value))
            else
              forall after :: Steps(before, item, false, after)
  {
    var w := MarkOf(item.path).whiteout;
    if Consistent(before) && !Leaves(before.tree, w) {
      AgreementIffNothingReached(kernel, before, w);
    }
  }

  predicate WellNamed(w: Whiteout) {
    PlainNames(Scope(w)) && (w.Erase? ==> w.victim != [])
  }

  /** After the whiteout, records and tree still agree. */
  ghost predicate AgreesAfter(kernel: Kernel, s: State, w: Whiteout)
    requires w.Erase? ==> w.victim != []
  {
    var left := Removal(kernel, s.tree, w);
    left.Some? && Agree(State(Strip(s.records, w), left.value))
  }

  /**
    From a consistent state, a whiteout that stays in the tree and succeeds keeps
    records and tree alike if and only if it removes nothing at a place other than the one it
    names. If it removes nothing there, it fails exactly when it is blocked, and otherwise
    removes from the tree what it removes from the records.
   */
  lemma AgreementIffNothingReached(kernel: Kernel, s: State, w: Whiteout)
    requires Consistent(s) && WellNamed(w) && !Leaves(s.tree, w)
    ensures Removal(kernel, s.tree, w).Some? ==> (AgreesAfter(kernel, s, w) <==> !Reaches(s.tree, w))
    ensures !Reaches(s.tree, w) ==>
              Removal(kernel, s.tree, w) == if Blocked(s.tree, w) then None else Some(Strip(s.tree, w))
    ensures Reaches(s.tree, w) ==> !Blocked(s.tree, w)
  {
    StripIsConsistent(s, w);
    match w
    case Opaque(dir) => OpaqueReaches(kernel, s, dir);
    case Erase(victim) => EraseReaches(kernel, s, victim);
  }

  /** Nothing is recorded below a path that is not a recorded directory. */
  lemma OnlyDirectoriesHoldPaths(s: State, dir: Path)
    requires Consistent(s) && !IsDirectory(s.tree, dir)
    ensures Strip(s.records, Opaque(dir)) == s.records && Strip(s.tree, Opaque(dir)) == s.tree
    ensures forall q | q in s.tree :: !(dir < q)
  {
    DirectoriesAgree(s, dir);
    forall q | q in s.records
      ensures !(dir < q)
    {
      if |dir| < |q| && dir != [] {
        assert DirectoryAt(s.records, q[..|dir|]) && q[..|dir|] != dir;
      }
    }
  }

  lemma StripDisagrees(records: map<Path, Record>, tree: Tree, path: Path)
    requires path in records && path !in tree
    ensures !Agree(State(records, tree))
  {
  }

  lemma OpaqueReaches(kernel: Kernel, s: State, dir: Path)
    requires Consistent(s) && PlainNames(dir) && !Leaves(s.tree, Opaque(dir))
    requires Consistent(StripState(s, Opaque(dir)))
    ensures var w := Opaque(dir); var left := Removal(kernel, s.tree, w);
            && (left.Some? ==> (AgreesAfter(kernel, s, w) <==> !Reaches(s.tree, w)))
            && (!Reaches(s.tree, w) ==> left == if Blocked(s.tree, w) then None else Some(Strip(s.tree, w)))
  {
    TreeIsGrounded(s);
    var end := WalkTo(s.tree, dir);
    if IsDirectory(s.tree, dir) {
      WalkDirect(s.tree, dir);
      EmptiedByName(s.tree, dir, end.via);
    } else {
      OnlyDirectoriesHoldPaths(s, dir);
      WalkStays(s.tree, [], dir, MAX_LINKS);
      if end.Reached? {
        var left := Emptied(s.tree, end.dir, end.via);
        if q :| q in s.tree && end.dir < q {
          var gone := EmptyingRemoves(s.tree, end.dir, end.via, q);
          StripDisagrees(s.records, left, gone);
        } else {
          assert left == s.tree && !Through(end.via, end.dir);
        }
      }
    }
  }

  lemma EraseReaches(kernel: Kernel, s: State, victim: Path)
    requires Consistent(s) && victim != [] && PlainNames(victim[..|victim| - 1]) && !Leaves(s.tree, Erase(victim))
    requires Consistent(StripState(s, Erase(victim)))
    ensures var w := Erase(victim); var left := Removal(kernel, s.tree, w);
            && (left.Some? ==> (AgreesAfter(kernel, s, w) <==> !Reaches(s.tree, w)))
            && (!Reaches(s.tree, w) ==> left == if Blocked(s.tree, w) then None else Some(Strip(s.tree, w)))
  {
    var scope, name := victim[..|victim| - 1], victim[|victim| - 1];
    assert victim == scope + [name];
    if IsDirectory(s.tree, scope) {
      EraseInDirectory(kernel, s, scope, name);
    } else {
      EraseElsewhere(kernel, s, scope, name);
    }
  }

  /** In a directory of the tree a plain name means itself, and `..` the directory above. */
  lemma EraseInDirectory(kernel: Kernel, s: State, scope: Path, name: string)
    requires Consistent(s) && PlainNames(scope) && IsDirectory(s.tree, scope) && !Leaves(s.tree, Erase(scope + [name]))
    requires Consistent(StripState(s, Erase(scope + [name])))
    ensures var w := Erase(scope + [name]); var left := Removal(kernel, s.tree, w);
            && (left.Some? ==> (AgreesAfter(kernel, s, w) <==> !Reaches(s.tree, w)))
            && (!Reaches(s.tree, w) ==> left == if Blocked(s.tree, w) then None else Some(Strip(s.tree, w)))
  {
    TreeIsGrounded(s);
    var victim := scope + [name];
    assert victim[..|victim| - 1] == scope;
    WalkDirect(s.tree, scope);
    if name == ".." {
      var above := scope[..|scope| - 1];
      assert above < scope;
      StripDisagrees(Strip(s.records, Erase(victim)), Strip(s.tree, Opaque(above)), scope);
    } else if victim !in s.tree {
      NothingBelow(s.records, s.tree, victim);
    }
  }

  /** Elsewhere nothing is recorded, so that whatever is removed is missed. */
  lemma EraseElsewhere(kernel: Kernel, s: State, scope: Path, name: string)
    requires Consistent(s) && !IsDirectory(s.tree, scope) && !Leaves(s.tree, Erase(scope + [name]))
    ensures var w := Erase(scope + [name]); var left := Removal(kernel, s.tree, w);
            && (left.Some? ==> (AgreesAfter(kernel, s, w) <==> !Reaches(s.tree, w)))
            && (!Reaches(s.tree, w) ==> left == if Blocked(s.tree, w) then None else Some(Strip(s.tree, w)))
  {
    TreeIsGrounded(s);
    var victim := scope + [name];
    assert victim[..|victim| - 1] == scope;
    OnlyDirectoriesHoldPaths(s, scope);
    assert scope < victim;
    NothingBelow(s.records, s.tree, victim);
    WalkStays(s.tree, [], scope, MAX_LINKS);
    var end, spot := WalkTo(s.tree, scope), Locate(s.tree, victim);
    if spot.Above? {
      assert spot.dir < end.dir;
      StripDisagrees(s.records, Strip(s.tree, Opaque(spot.dir)), end.dir);
    } else if spot.Taken? {
      if q :| q in spot.via && spot.place < q {
        StripDisagrees(s.records, Strip(s.tree, Opaque(spot.place)), q);
      } else {
        StripDisagrees(s.records, Strip(s.tree, Erase(spot.place)), spot.place);
      }
    }
  }

  /** The names `.wh..` and `.wh...` are taken for whiteouts of `.` and `..`. */
  lemma DotWhiteouts()
    ensures Sanitize(".wh..") == Some(Some([".wh.."])) && MarkOf([".wh.."]) == Marks(Erase(["."]))
    ensures Sanitize(".wh...") == Some(Some([".wh..."])) && MarkOf([".wh..."]) == Marks(Erase([".."]))
  {
    DotWhiteout(".");
    DotWhiteout("..");
    assert WHITEOUT_PREFIX + "." == ".wh.." && WHITEOUT_PREFIX + ".." == ".wh...";
  }

  lemma DotWhiteout(rest: string)
    requires rest == "." || rest == ".."
    ensures var name := WHITEOUT_PREFIX + rest;
            Sanitize(name) == Some(Some([name])) && MarkOf([name]) == Marks(Erase([rest]))
  {
    var name := WHITEOUT_PREFIX + rest;
    assert |name| < |OPAQUE_NAME| && name[..4] == WHITEOUT_PREFIX && name[4..] == rest;
    assert PlainPath([name]);
    SanitizeIsExact([name]);
    assert Join([name], '/') == name;
    assert [name][..0] + [rest] == [rest];
  }

  /** Erasing `.` in a directory fails: the last step of removing a directory refuses that name. */
  lemma DotWhiteoutFails(kernel: Kernel, s: State, dir: Path)
    requires Consistent(s) && PlainNames(dir) && IsDirectory(s.tree, dir)
    ensures Removal(kernel, s.tree, Erase(dir + ["."])).None?
  {
    TreeIsGrounded(s);
    WalkDirect(s.tree, dir);
    assert (dir + ["."])[..|dir|] == dir;
  }

  /** Erasing `..` in a directory empties the directory above it, and the records do not follow. */
  lemma DotDotWhiteoutEmpties(kernel: Kernel, s: State, dir: Path)
    requires Consistent(s) && PlainNames(dir) && dir != [] && IsDirectory(s.tree, dir)
    ensures var w := Erase(dir + [".."]); var left := Removal(kernel, s.tree, w);
            && (left.Some? ==> left.value == Strip(s.tree, Opaque(dir[..|dir| - 1])))
            && (left.Some? ==> dir in Strip(s.records, w) && dir !in left.value)
  {
    TreeIsGrounded(s);
    WalkDirect(s.tree, dir);
    assert (dir + [".."])[..|dir|] == dir;
    assert dir[..|dir| - 1] < dir;
  }

  /** A whiteout below a symlink to a directory removes the directory's entry, and no record. */
  lemma LinkedWhiteoutDiffers(kernel: Kernel, s: State, link: string, dir: string, name: string)
    requires Consistent(s) && PlainName(link) && PlainName(dir) && '/' !in dir && PlainName(name)
    requires [link] in s.tree && s.tree[[link]] == SymlinkNode(dir)
    requires IsDirectory(s.tree, [dir]) && [dir, name] in s.tree
    ensures var w := Erase([link, name]);
            && Removal(kernel, s.tree, w) == Some(Strip(s.tree, Erase([dir, name])))
            && Strip(s.records, w) == s.records && [dir, name] in s.records
            && Reaches(s.tree, w) && !Leaves(s.tree, w)
  {
    var victim := [link, name];
    assert victim[..1] == [link];
    LinkIsFollowed(s.tree, link, dir);
    assert [dir] + [name] == [dir, name];
    OnlyDirectoriesHoldPaths(s, [link]);
    assert [link] < victim;
    NothingBelow(s.records, s.tree, victim);
  }

  lemma LinkIsFollowed(tree: Tree, link: string, dir: string)
    requires PlainName(link) && PlainName(dir) && '/' !in dir
    requires [link] in tree && tree[[link]] == SymlinkNode(dir) && IsDirectory(tree, [dir])
    ensures WalkTo(tree, [link]) == Reached([dir], {[link], [dir]})
  {
    SplitSingle(dir, '/');
    assert dir[0] in dir;
    assert [] + [link] == [link] && [] + [dir] == [dir];
    assert [link][1..] == [] && [dir][1..] == [] && [dir] + [] == [dir];
    assert Walk(tree, [dir], [], MAX_LINKS - 1) == Reached([dir], {});
    assert Walk(tree, [], [dir], MAX_LINKS - 1) == Reached([dir], {[dir]});
  }

  /** A directory with one file, and a symlink to it. */
  datatype Linked = Linked(link: string, dir: string, name: string) {
    predicate Ok() {
      && PlainName(link) && PlainName(dir) && PlainName(name) && link != dir
      && '/' !in dir && WHITEOUT_PREFIX + name != OPAQUE_NAME
    }

    function Records(): map<Path, Record> {
      map[
        [dir] := Record(Directory, 0, 0, 0, None),
        [dir, name] := Record(File, 0, 0, 0, None),
        [link] := Record(Symlink, 0, 0, 0, Some(dir))]
    }

    function Files(): Tree {
      map[[dir] := DirectoryNode, [dir, name] := FileNode(""), [link] := SymlinkNode(dir)]
    }
  }

  /** The whiteout below the link removes the file from its directory, and the file's record stays. */
  lemma LinkedWhiteoutExample(kernel: Kernel, l: Linked)
    requires l.Ok()
    ensures var s, w := State(l.Records(), l.Files()), Erase([l.link, l.name]);
            && MarkOf([l.link, WHITEOUT_PREFIX + l.name]) == Marks(w) && Consistent(s)
            && Removal(kernel, s.tree, w) == Some(map[[l.dir] := DirectoryNode, [l.link] := SymlinkNode(l.dir)])
            && Strip(s.records, w) == s.records && !AgreesAfter(kernel, s, w)
  {
    var s := State(l.Records(), l.Files());
    LinkedMark(l);
    LinkedIsConsistent(l);
    LinkedWhiteoutDiffers(kernel, s, l.link, l.dir, l.name);
    assert Strip(s.tree, Erase([l.dir, l.name])) == map[[l.dir] := DirectoryNode, [l.link] := SymlinkNode(l.dir)];
    StripDisagrees(s.records, Strip(s.tree, Erase([l.dir, l.name])), [l.dir, l.name]);
  }

  lemma LinkedMark(l: Linked)
    requires l.Ok()
    ensures MarkOf([l.link, WHITEOUT_PREFIX + l.name]) == Marks(Erase([l.link, l.name]))
  {
    var name := WHITEOUT_PREFIX + l.name;
    assert name[..4] == WHITEOUT_PREFIX && name[4..] == l.name;
    assert [l.link, name][..1] + [l.name] == [l.link, l.name];
  }

  lemma LinkedIsConsistent(l: Linked)
    requires l.Ok()
    ensures Consistent(State(l.Records(), l.Files()))
  {
    assert [l.dir, l.name][..1] == [l.dir];
  }

  /** Without symlinks on its way, a whiteout of a plain name stays where its name says. */
  lemma NamedWhiteoutStaysPut(s: State, w: Whiteout)
    requires Consistent(s) && WellNamed(w) && (w.Erase? ==> PlainName(w.victim[|w.victim| - 1]))
    requires forall k | 0 < k <= |Scope(w)| :: !KindAt(s.records, Scope(w)[..k], Symlink)
    ensures !Reaches(s.tree, w) && !Leaves(s.tree, w)
    ensures Blocked(s.tree, w) <==> exists k | 0 < k <= |Scope(w)| :: KindAt(s.records, Scope(w)[..k], File)
  {
    TreeIsGrounded(s);
    var scope := Scope(w);
    forall k | 0 < k <= |scope|
      ensures !SymlinkAt(s.tree, scope[..k])
      ensures FileAt(s.tree, scope[..k]) <==> KindAt(s.records, scope[..k], File)
    {
      assert scope[..k] in s.records ==> Matches(s.records[scope[..k]], s.tree[scope[..k]]);
    }
    assert scope[0..] == scope;
    WalkByName(s.tree, scope, 0, MAX_LINKS);
    assert w.Erase? ==> scope + [w.victim[|w.victim| - 1]] == w.victim;
  }

  /** A step that keeps its contract keeps both invariants. */
  lemma StepInvariants(before: State, item: Item, after: State)
    requires item.path != [] && Steps(before, item, true, after)
    ensures Rooted(before.records) ==> Rooted(after.records)
    ensures Consistent(before) && !StraysAt(before.tree, item) ==>
              after == After(before, item) && Consistent(after)
  {
    if Rooted(before.records) {
      RootedAfter(before.records, item);
    }
    if Consistent(before) && !StraysAt(before.tree, item) {
      AgreeAfter(before, item);
    }
  }

  lemma ItemsStep(entries: seq<Entry>, i: nat)
    requires i < |entries|
    ensures var front, checked := Items(entries[..i]), Sanitize(entries[i].name);
            Items(entries[..i + 1]) ==
            if front.None? || checked.None? then None
            else if checked.value.None? then front
            else Some(front.value + [Item(checked.value.value, entries[i])])
  {
    assert entries[..i + 1][..i] == entries[..i];
  }

  lemma RunStep(s: State, items: seq<Item>, item: Item)
    requires item.path != []
    ensures var now := Run(s, items);
            Run(s, items + [item]) ==
            if now.None? || Fails(now.value, item) then None else Some(After(now.value, item))
  {
    assert (items + [item])[..|items|] == items;
  }

  lemma {:induction false} MeaningFails(s: State, entries: seq<Entry>, i: nat)
    requires i <= |entries| && Meaning(s, entries[..i]).None?
    ensures Meaning(s, entries).None?
    decreases |entries| - i
  {
    if i == |entries| {
      assert entries[..i] == entries;
    } else {
      ItemsStep(entries, i);
      var front, checked := Items(entries[..i]), Sanitize(entries[i].name);
      if front.Some? && checked.Some? && checked.value.Some? {
        RunStep(s, front.value, Item(checked.value.value, entries[i]));
      }
      MeaningFails(s, entries, i + 1);
    }
  }

  lemma {:induction false} StraightBefore(s: State, entries: seq<Entry>, i: nat, n: nat)
    requires i <= n <= |entries| && StraightTo(s, entries, n)
    ensures StraightTo(s, entries, i)
  {
    if i < n {
      StraightBefore(s, entries, i, n - 1);
    }
  }

  lemma StreamInTwoPhases(before: State, entries: seq<Entry>, ok: bool, after: State)
    requires Streams(before, entries, ok, after)
    ensures InTwoPhases(before, entries, ok, after)
  {
    if Orderly(entries) {
      StreamIsTwoPhase(before, Items(entries).value);
    }
  }

  lemma StreamRefuses(before: State, entries: seq<Entry>, i: nat, now: State)
    requires i < |entries| && Sanitize(entries[i].name).None?
    ensures forall after :: Streams(before, entries, false, after) && InTwoPhases(before, entries, false, after)
  {
    ItemsStep(entries, i);
    MeaningFails(before, entries, i + 1);
    forall after
      ensures Streams(before, entries, false, after) && InTwoPhases(before, entries, false, after)
    {
      StreamInTwoPhases(before, entries, false, after);
    }
  }

  lemma StreamSkips(before: State, entries: seq<Entry>, i: nat, now: State)
    requires i < |entries| && Sanitize(entries[i].name) == Some(None) && Follows(before, entries, i, now)
    ensures Follows(before, entries, i + 1, now)
    ensures Ends(before, entries, i + 1, now)
  {
    ItemsStep(entries, i);
  }

  lemma StreamStep(before: State, entries: seq<Entry>, i: nat, now: State, ok: bool, after: State)
    requires i < |entries| && Follows(before, entries, i, now)
    requires Sanitize(entries[i].name).Some? && Sanitize(entries[i].name).value.Some?
    requires Steps(now, Item(Sanitize(entries[i].name).value.value, entries[i]), ok, after)
    ensures ok && Rooted(now.records) ==> Rooted(after.records)
    ensures ok ==> Follows(before, entries, i + 1, after)
    ensures ok ==> Ends(before, entries, i + 1, after)
    ensures !ok ==> Streams(before, entries, false, after)
  {
    var item := Item(Sanitize(entries[i].name).value.value, entries[i]);
    if ok {
      StepInvariants(now, item, after);
      if Consistent(before) && StraightTo(before, entries, i) {
        StepFollows(before, entries, i, now, item, after);
      }
    } else if Consistent(before) && Straight(before, entries) {
      StraightBefore(before, entries, i + 1, |entries|);
      MeaningStep(before, entries, i, now, item);
      MeaningFails(before, entries, i + 1);
    }
  }

  lemma MeaningStep(before: State, entries: seq<Entry>, i: nat, now: State, item: Item)
    requires i < |entries| && Meaning(before, entries[..i]) == Some(now)
    requires item.path != [] && Sanitize(entries[i].name) == Some(Some(item.path)) && item.entry == entries[i]
    ensures Meaning(before, entries[..i + 1]) == if Fails(now, item) then None else Some(After(now, item))
    ensures StraightAt(before, entries, i) <==> !StraysAt(now.tree, item)
    ensures LeavesEntry(before, entries, i) <==> LeavesAt(now.tree, item)
  {
    ItemsStep(entries, i);
    RunStep(before, Items(entries[..i]).value, item);
  }

  lemma StepFollows(before: State, entries: seq<Entry>, i: nat, now: State, item: Item, after: State)
    requires i < |entries| && Follows(before, entries, i, now) && Consistent(before) && StraightTo(before, entries, i)
    requires item.path != [] && Sanitize(entries[i].name) == Some(Some(item.path)) && item.entry == entries[i]
    requires Steps(now, item, true, after)
    requires !StraysAt(now.tree, item) ==> after == After(now, item) && Consistent(after)
    ensures Follows(before, entries, i + 1, after)
    ensures Ends(before, entries, i + 1, after)
  {
    MeaningStep(before, entries, i, now, item);
  }

  lemma {:induction false} ImageFails(s: State, layers: seq<seq<Entry>>, i: nat)
    requires i <= |layers| && ImageMeaning(s, layers[..i]).None?
    ensures ImageMeaning(s, layers).None?
    decreases |layers| - i
  {
    if i == |layers| {
      assert layers[..i] == layers;
    } else {
      assert layers[..i + 1][..i] == layers[..i];
      ImageFails(s, layers, i + 1);
    }
  }

  lemma ImageStep(before: State, layers: seq<seq<Entry>>, i: nat, now: State, ok: bool, after: State)
    requires i < |layers| && FollowsImage(before, layers, i, now) && Streams(now, layers[i], ok, after)
    ensures ok ==> FollowsImage(before, layers, i + 1, after)
    ensures !ok && Consistent(before) && StraightLayers(before, layers) ==> ImageMeaning(before, layers).None?
  {
    if Consistent(before) && StraightLayers(before, layers) {
      assert Straight(ImageMeaning(before, layers[..i]).value, layers[i]);
      assert layers[..i + 1][..i] == layers[..i];
      if !ok {
        ImageFails(before, layers, i + 1);
      }
    }
  }

  // ----- Final metadata -----

  datatype Listed = Listed(path: Path, record: Record)

  predicate Deeper(x: Listed, y: Listed) {
    |x.path| > |y.path|
  }

  /** No directory is listed before anything below it. */
  predicate ContentsFirst(order: seq<Listed>) {
    forall i, j | 0 <= i < j < |order| && order[i].record.kind.Directory? :: !(order[i].path < order[j].path)
  }

  /**
    The order in which ownership and modes are set: files and symlinks as listed, then the
    directories from the deepest up. Every record is visited once, and no directory before
    anything below it.
   */
  method MetadataOrder(listing: seq<Listed>) returns (order: seq<Listed>)
    ensures multiset(order) == multiset(listing)
    ensures ContentsFirst(order)
  {
    var leaves: seq<Listed> := [];
    var directories: seq<Listed> := [];
    for i := 0 to |listing|
      invariant multiset(leaves) + multiset(directories) == multiset(listing[..i])
      invariant forall k | 0 <= k < |leaves| :: !leaves[k].record.kind.Directory?
      invariant forall k | 0 <= k < |directories| :: directories[k].record.kind.Directory?
    {
      assert listing[..i + 1] == listing[..i] + [listing[i]];
      if listing[i].record.kind.Directory? {
        directories := directories + [listing[i]];
      } else {
        leaves := leaves + [listing[i]];
      }
    }
    assert listing[..|listing|] == listing;
    var sorted := Sort(Deeper, directories);
    order := leaves + sorted;
    assert multiset(order) == multiset(leaves) + multiset(sorted);
    ContentsComeFirst(leaves, directories);
  }

  lemma ContentsComeFirst(leaves: seq<Listed>, directories: seq<Listed>)
    requires forall k | 0 <= k < |leaves| :: !leaves[k].record.kind.Directory?
    ensures ContentsFirst(leaves + Sort(Deeper, directories))
  {
    var sorted := Sort(Deeper, directories);
    SortSorts(Deeper, directories);
    var order := leaves + sorted;
    forall i, j | 0 <= i < j < |order| && order[i].record.kind.Directory?
      ensures !(order[i].path < order[j].path)
    {
      assert !Deeper(sorted[j - |leaves|], sorted[i - |leaves|]);
    }
  }
}
