/**
  A bundle in which the outcome of the audit depends on the order of DT_NEEDED entries.

  `lib/E` needs D and L. `lib/D` and `lib/L` need each other. E and D add `lib/x` to the
  inherited search directories, L adds `lib/y`, and `lib/y/L` is a library of another name.
  D finds the right L unless it inherits `lib/y`, which it does exactly when L loads it.
 */
module StartupOrder {
  import opened Wrappers
  import opened Text
  import opened Bundle
  import opened LibraryRuns
  import opened StartupSearch
  import opened Startup
  import opened StartupVerifier
  import opened StartupClosure

  predicate SimpleName(name: string) {
    PlainName(name) && '/' !in name && '$' !in name && ':' !in name
  }

  /** The directory of the payload and the names of what is in it. */
  datatype Names = Names(lib: Path, e: string, d: string, l: string, x: string, y: string, ld: string) {
    predicate Ok() {
      && SimpleName(e) && SimpleName(d) && SimpleName(l) && SimpleName(x) && SimpleName(y) && SimpleName(ld)
      && e != d && e != l && e != ld && e != y && d != l && d != ld && d != y && l != ld && l != y && ld != y
      && x != y && x != e && x != d && x != l && x != ld
    }

    function At(name: string): Path {
      lib + [name]
    }

    function Other(): Path {
      lib + [y, l]
    }
  }

  function OriginText(name: string): string {
    "$ORIGIN" + ("/" + name)
  }

  function Library(soname: Option<string>, needed: seq<string>, rpaths: seq<string>): ElfInfo {
    ElfInfo(None, needed, rpaths, [], soname, map[], {})
  }

  function ElfAt(n: Names, order: seq<string>, path: Path): Option<ElfInfo> {
    if path == n.At(n.e) then Some(ElfInfo(Some("/" + n.ld), order, [OriginText(n.x)], [], None, map[], {}))
    else if path == n.At(n.d) then Some(Library(Some(n.d), [n.l], [OriginText(n.x)]))
    else if path == n.At(n.l) then Some(Library(Some(n.l), [n.d], [OriginText(n.y)]))
    else if path == n.Other() then Some(Library(Some(n.d), [], []))
    else if path == n.At(n.ld) then Some(Library(None, [], []))
    else None
  }

  predicate IsDirectory(n: Names, path: Path) {
    path == n.lib || path == n.At(n.y)
  }

  predicate Exists(n: Names, order: seq<string>, path: Path) {
    ElfAt(n, order, path).Some? || IsDirectory(n, path)
  }

  /** The bundle whose tool lists its dependencies in the given order. */
  function World(n: Names, order: seq<string>): Bundle {
    Bundle(
      FileSystem(
        path => if Exists(n, order, path) then Some(path) else None,
        path => if Exists(n, order, path) then Present else Missing,
        path => ElfAt(n, order, path).Some?,
        path => IsDirectory(n, path),
        path => ElfAt(n, order, path).Some?,
        path => if ElfAt(n, order, path).Some? then Some(ELF_MAGIC) else None,
        path => ElfAt(n, order, path),
        path => if ElfAt(n, order, path).Some? then Some(ElfAt(n, order, path).value.interpreter) else None),
      n.lib, [n.lib], map[])
  }

  // ----- Which paths are which -----

  lemma SnocEqual(p: Path, x: string, y: string)
    ensures p + [x] == p + [y] <==> x == y
  {
    assert (p + [x])[|p|] == x && (p + [y])[|p|] == y;
  }

  lemma ElfIs(n: Names, order: seq<string>, name: string)
    requires n.Ok()
    ensures var elf := ElfAt(n, order, n.At(name));
            && (name == n.e ==> elf == Some(ElfInfo(Some("/" + n.ld), order, [OriginText(n.x)], [], None, map[], {})))
            && (name == n.d ==> elf == Some(Library(Some(n.d), [n.l], [OriginText(n.x)])))
            && (name == n.l ==> elf == Some(Library(Some(n.l), [n.d], [OriginText(n.y)])))
            && (name == n.ld ==> elf == Some(Library(None, [], [])))
            && (elf.Some? ==> name == n.e || name == n.d || name == n.l || name == n.ld)
  {
    SnocEqual(n.lib, name, n.e);
    SnocEqual(n.lib, name, n.d);
    SnocEqual(n.lib, name, n.l);
    SnocEqual(n.lib, name, n.ld);
    assert |n.At(name)| != |n.Other()|;
  }

  lemma DeepIs(n: Names, order: seq<string>, dir: string, name: string)
    requires n.Ok()
    ensures var path := n.At(dir) + [name];
            if dir == n.y && name == n.l then ElfAt(n, order, path) == Some(Library(Some(n.d), [], []))
            else !Exists(n, order, path)
  {
    var path := n.At(dir) + [name];
    assert path[|n.lib|] == dir && path[|n.lib| + 1] == name;
    assert n.Other()[|n.lib|] == n.y && n.Other()[|n.lib| + 1] == n.l;
    assert path == n.lib + [dir, name];
    assert |path| == |n.lib| + 2;
  }

  // ----- Search plans -----

  lemma DedupSnoc(s: seq<Path>, x: Path)
    ensures Dedup(s + [x]) == if x in s then Dedup(s) else Dedup(s) + [x]
  {
    assert (s + [x])[..|s|] == s;
  }

  lemma {:induction false} DedupKeepsDistinct(s: seq<Path>)
    requires forall i, j | 0 <= i < j < |s| :: s[i] != s[j]
    ensures Dedup(s) == s
  {
    if s != [] {
      var front, last := s[..|s| - 1], s[|s| - 1];
      DedupKeepsDistinct(front);
      assert s == front + [last];
      assert last !in front;
    }
  }

  lemma NameComponents(name: string)
    requires SimpleName(name)
    ensures Components(name) == [name] && Components("/" + name) == [name]
  {
    SplitSingle(name, '/');
    SplitFirst("", name, '/');
    assert "" + ['/'] + name == "/" + name;
    assert [name][1..] == [] && (["" ] + [name])[1..] == [name];
    assert Named([name]) == [name];
  }

  lemma Expands(n: Names, order: seq<string>, name: string)
    requires SimpleName(name)
    ensures ExpandValues(World(n, order), n.lib, [OriginText(name)]) == Some([n.At(name)])
  {
    var b, text := World(n, order), OriginText(name);
    NameComponents(name);
    assert text[..7] == "$ORIGIN" && text[7..] == "/" + name;
    assert '$' !in "/" + name;
    assert n.lib <= n.At(name);
    assert ExpandEntry(b, n.lib, text) == Some(n.At(name));
    assert ':' !in text;
    SplitSingle(text, ':');
    assert [text][1..] == [];
    var expanded := [n.At(name)];
    assert ExpandEntries(b, n.lib, []) == Some([]) && ExpandValues(b, n.lib, []) == Some([]);
    assert expanded + [] == expanded;
    assert ExpandEntries(b, n.lib, [text]) == Some(expanded);
  }

  /** A file in the payload directory with one DT_RPATH entry. */
  lemma PlanIs(n: Names, order: seq<string>, file: string, name: string, info: ElfInfo, inherited: seq<Path>)
    requires SimpleName(name) && info.rpaths == [OriginText(name)] && info.runpaths == []
    ensures var ranked := Dedup([n.At(name)] + inherited);
            PlanSearch(World(n, order), n.At(file), info, inherited) == Some(SearchPlan(Dedup(ranked + [n.lib]), ranked))
  {
    var b := World(n, order);
    Expands(n, order, name);
    assert n.At(file)[..|n.At(file)| - 1] == n.lib;
    assert ExpandValues(b, n.lib, []) == Some([]);
    var ranked := Dedup([n.At(name)] + inherited);
    assert ranked + [n.lib] + [] == ranked + [n.lib];
  }

  lemma Directories(n: Names)
    requires n.Ok()
    ensures n.At(n.x) != n.At(n.y) && n.At(n.x) != n.lib && n.At(n.y) != n.lib
  {
    SnocEqual(n.lib, n.x, n.y);
    assert |n.At(n.x)| == |n.At(n.y)| == |n.lib| + 1;
  }

  function State(n: Names, name: string, inherited: seq<Path>): LibraryState {
    LibraryState(n.At(name), inherited)
  }

  lemma RanksTwice(x: Path)
    ensures Dedup([x]) == [x] && Dedup([x] + [x]) == [x]
  {
    DedupKeepsDistinct([x]);
    DedupSnoc([x], x);
  }

  lemma RanksPair(x: Path, lib: Path)
    requires x != lib
    ensures Dedup([x] + [lib]) == [x, lib]
  {
    assert [x] + [lib] == [x, lib];
    DedupKeepsDistinct([x, lib]);
  }

  lemma RanksReturned(x: Path, y: Path)
    requires x != y
    ensures Dedup([x] + [y, x]) == [x, y]
  {
    assert [x] + [y, x] == [x, y] + [x];
    DedupKeepsDistinct([x, y]);
    DedupSnoc([x, y], x);
  }

  lemma RanksThree(x: Path, y: Path, lib: Path)
    requires x != y && x != lib && y != lib
    ensures Dedup([x, y] + [lib]) == [x, y, lib]
  {
    assert [x, y] + [lib] == [x, y, lib];
    DedupKeepsDistinct([x, y, lib]);
  }

  lemma EntryPlan(n: Names, order: seq<string>)
    requires n.Ok()
    ensures var s := State(n, n.e, []); var b := World(n, order);
            Planned(b, s) && PlanOf(b, s) == SearchPlan([n.At(n.x), n.lib], [n.At(n.x)])
  {
    ElfIs(n, order, n.e);
    Directories(n);
    PlanIs(n, order, n.e, n.x, ElfAt(n, order, n.At(n.e)).value, []);
    assert [n.At(n.x)] + [] == [n.At(n.x)];
    RanksTwice(n.At(n.x));
    RanksPair(n.At(n.x), n.lib);
  }

  lemma DirectPlan(n: Names, order: seq<string>)
    requires n.Ok()
    ensures var s := State(n, n.d, [n.At(n.x)]); var b := World(n, order);
            Planned(b, s) && PlanOf(b, s) == SearchPlan([n.At(n.x), n.lib], [n.At(n.x)])
  {
    var x := n.At(n.x);
    ElfIs(n, order, n.d);
    Directories(n);
    PlanIs(n, order, n.d, n.x, ElfAt(n, order, n.At(n.d)).value, [x]);
    RanksTwice(x);
    RanksPair(x, n.lib);
  }

  lemma BackPlan(n: Names, order: seq<string>)
    requires n.Ok()
    ensures var s := State(n, n.l, [n.At(n.x)]); var b := World(n, order);
            Planned(b, s) && PlanOf(b, s) == SearchPlan([n.At(n.y), n.At(n.x), n.lib], [n.At(n.y), n.At(n.x)])
  {
    var x, y := n.At(n.x), n.At(n.y);
    ElfIs(n, order, n.l);
    Directories(n);
    PlanIs(n, order, n.l, n.y, ElfAt(n, order, n.At(n.l)).value, [x]);
    RanksPair(y, x);
    RanksThree(y, x, n.lib);
  }

  lemma ReturnPlan(n: Names, order: seq<string>)
    requires n.Ok()
    ensures var s := State(n, n.d, [n.At(n.y), n.At(n.x)]); var b := World(n, order);
            Planned(b, s) && PlanOf(b, s) == SearchPlan([n.At(n.x), n.At(n.y), n.lib], [n.At(n.x), n.At(n.y)])
  {
    var x, y := n.At(n.x), n.At(n.y);
    ElfIs(n, order, n.d);
    Directories(n);
    PlanIs(n, order, n.d, n.x, ElfAt(n, order, n.At(n.d)).value, [y, x]);
    RanksReturned(x, y);
    RanksThree(x, y, n.lib);
  }

  // ----- What each state depends on -----

  lemma LibLookup(n: Names, order: seq<string>, name: string)
    requires n.Ok() && (name == n.d || name == n.l)
    ensures var b := World(n, order);
            && Components(name) == [name]
            && Lookup(b, n.lib + [name]) == Present && ResolveFile(b, n.lib + [name]) == Success(n.At(name))
            && ParseElf(b, n.At(name)) == ElfAt(n, order, n.At(name))
  {
    ElfIs(n, order, name);
    NameComponents(name);
    assert n.lib <= n.At(name);
  }

  lemma DeepLookup(n: Names, order: seq<string>, dir: string, name: string)
    requires n.Ok() && !(dir == n.y && name == n.l)
    ensures Lookup(World(n, order), n.At(dir) + [name]) == Missing
  {
    DeepIs(n, order, dir, name);
  }

  /** From directories without the name, the file in the payload directory is found. */
  lemma FindsDirect(n: Names, order: seq<string>, name: string)
    requires n.Ok() && (name == n.d || name == n.l)
    ensures Finds(World(n, order), [n.At(n.x), n.lib], name, n.At(name))
  {
    LibLookup(n, order, name);
    DeepLookup(n, order, n.x, name);
    assert FindsAt(World(n, order), [n.At(n.x), n.lib], name, 1, n.At(name));
  }

  lemma FindsBack(n: Names, order: seq<string>)
    requires n.Ok()
    ensures Finds(World(n, order), [n.At(n.y), n.At(n.x), n.lib], n.d, n.At(n.d))
  {
    LibLookup(n, order, n.d);
    DeepLookup(n, order, n.x, n.d);
    DeepLookup(n, order, n.y, n.d);
    assert FindsAt(World(n, order), [n.At(n.y), n.At(n.x), n.lib], n.d, 2, n.At(n.d));
  }

  lemma FindsOther(n: Names, order: seq<string>)
    requires n.Ok()
    ensures Finds(World(n, order), [n.At(n.x), n.At(n.y), n.lib], n.l, n.Other())
    ensures ParseElf(World(n, order), n.Other()) == Some(Library(Some(n.d), [], []))
  {
    var b := World(n, order);
    LibLookup(n, order, n.l);
    DeepLookup(n, order, n.x, n.l);
    DeepIs(n, order, n.y, n.l);
    assert n.At(n.y) + [n.l] == n.Other() && n.lib <= n.Other();
    assert FindsAt(b, [n.At(n.x), n.At(n.y), n.lib], n.l, 1, n.Other());
  }

  lemma DepsOfOne(b: Bundle, s: LibraryState, found: Path)
    requires Planned(b, s) && |InfoOf(b, s).needed| == 1 && ProvidesAt(b, s, 0, found)
    ensures Deps(b, s) == Some([ChildOf(b, s, found)])
  {
    ProviderIs(b, s, 0, found);
    assert AllProvided(b, s);
    OneElement(Deps(b, s).value, ChildOf(b, s, found));
  }

  lemma DepsOfTwo(b: Bundle, s: LibraryState, x: Path, y: Path)
    requires Planned(b, s) && |InfoOf(b, s).needed| == 2
    requires Provider(b, s, 0) == Some(x) && Provider(b, s, 1) == Some(y)
    ensures Deps(b, s) == Some([ChildOf(b, s, x), ChildOf(b, s, y)])
  {
    assert AllProvided(b, s);
    TwoElements(Deps(b, s).value, ChildOf(b, s, x), ChildOf(b, s, y));
  }

  lemma OneElement(s: seq<LibraryState>, x: LibraryState)
    requires |s| == 1 && s[0] == x
    ensures s == [x]
  {
  }

  lemma TwoElements(s: seq<LibraryState>, x: LibraryState, y: LibraryState)
    requires |s| == 2 && s[0] == x && s[1] == y
    ensures s == [x, y]
  {
  }

  lemma DirectDeps(n: Names, order: seq<string>)
    requires n.Ok()
    ensures Deps(World(n, order), State(n, n.d, [n.At(n.x)])) == Some([State(n, n.l, [n.At(n.x)])])
  {
    var b, s := World(n, order), State(n, n.d, [n.At(n.x)]);
    DirectPlan(n, order);
    ElfIs(n, order, n.d);
    ElfIs(n, order, n.l);
    FindsDirect(n, order, n.l);
    LibLookup(n, order, n.l);
    assert ProvidesAt(b, s, 0, n.At(n.l));
    DepsOfOne(b, s, n.At(n.l));
  }

  lemma BackDeps(n: Names, order: seq<string>)
    requires n.Ok()
    ensures Deps(World(n, order), State(n, n.l, [n.At(n.x)])) == Some([State(n, n.d, [n.At(n.y), n.At(n.x)])])
  {
    var b, s := World(n, order), State(n, n.l, [n.At(n.x)]);
    BackPlan(n, order);
    ElfIs(n, order, n.l);
    ElfIs(n, order, n.d);
    FindsBack(n, order);
    LibLookup(n, order, n.d);
    assert ProvidesAt(b, s, 0, n.At(n.d));
    DepsOfOne(b, s, n.At(n.d));
  }

  /** When it inherits the directory of the other library, D finds that one and is refused. */
  lemma ReturnDeps(n: Names, order: seq<string>)
    requires n.Ok()
    ensures !AllProvided(World(n, order), State(n, n.d, [n.At(n.y), n.At(n.x)]))
    ensures Deps(World(n, order), State(n, n.d, [n.At(n.y), n.At(n.x)])).None?
  {
    var b, s := World(n, order), State(n, n.d, [n.At(n.y), n.At(n.x)]);
    ReturnPlan(n, order);
    ElfIs(n, order, n.d);
    FindsOther(n, order);
    assert InfoOf(b, s).needed == [n.l];
    forall found
      ensures !ProvidesAt(b, s, 0, found)
    {
      if Finds(b, PlanOf(b, s).search, n.l, found) {
        FindsIsUnique(b, PlanOf(b, s).search, n.l, found, n.Other());
      }
    }
    assert Provider(b, s, 0).None?;
  }

  lemma EntryDeps(n: Names, first: string, second: string)
    requires n.Ok() && (first == n.d || first == n.l) && (second == n.d || second == n.l)
    ensures Deps(World(n, [first, second]), State(n, n.e, []))
         == Some([State(n, first, [n.At(n.x)]), State(n, second, [n.At(n.x)])])
  {
    var order := [first, second];
    var b, s := World(n, order), State(n, n.e, []);
    EntryPlan(n, order);
    ElfIs(n, order, n.e);
    EntryProvider(n, order, first, 0);
    EntryProvider(n, order, second, 1);
    DepsOfTwo(b, s, n.At(first), n.At(second));
  }

  lemma EntryProvider(n: Names, order: seq<string>, name: string, i: nat)
    requires n.Ok() && (name == n.d || name == n.l) && i < |order| && order[i] == name
    ensures Provider(World(n, order), State(n, n.e, []), i) == Some(n.At(name))
  {
    var b, s := World(n, order), State(n, n.e, []);
    EntryPlan(n, order);
    ElfIs(n, order, n.e);
    ElfIs(n, order, name);
    FindsDirect(n, order, name);
    LibLookup(n, order, name);
    assert ProvidesAt(b, s, i, n.At(name));
    ProviderIs(b, s, i, n.At(name));
  }

  // ----- The two runs -----

  /** Two libraries that load each other, one of them refused when loaded by the other. */
  lemma RunsDiffer(g: Graph, d: LibraryState, l: LibraryState, again: LibraryState, left: nat)
    requires DepsOf(g, d) == Some([l]) && DepsOf(g, l) == Some([again]) && DepsOf(g, again).None?
    requires again.path == d.path && d.path != l.path && left >= 2
    ensures VisitAll(g, Visited({}, left), {}, [d, l], 2).Some?
    ensures VisitAll(g, Visited({}, left), {}, [l, d], 2).None?
  {
    var start := Visited({}, left);
    VisitsOne(g, start, {}, d, l);
    VisitsOne(g, Visited({}, left - 1), {d.path}, l, again);
    assert Visit(g, Visited({}, left - 2), {d.path} + {l.path}, again) == Some(Visited({}, left - 2));
    assert {} + {d.path} == {d.path} && {} + {l.path} == {l.path};
    assert Visit(g, Visited({}, left - 1), {d.path}, l) == Some(Visited({} + {l}, left - 2));
    assert Visit(g, start, {}, d) == Some(Visited({} + {l} + {d}, left - 2));
    assert VisitAll(g, start, {}, [d, l], 0) == Some(start);
    assert VisitAll(g, start, {}, [d, l], 1) == Visit(g, start, {}, d);
    VisitsOne(g, start, {}, l, again);
    assert Visit(g, Visited({}, left - 1), {} + {l.path}, again).None?;
    assert VisitAll(g, start, {}, [l, d], 0) == Some(start);
    assert VisitAll(g, start, {}, [l, d], 1) == Visit(g, start, {}, l);
  }

  lemma VisitsOne(g: Graph, from: Visited, active: set<Path>, s: LibraryState, t: LibraryState)
    requires DepsOf(g, s) == Some([t]) && s !in from.verified && s.path !in active && from.left > 0
    ensures var inner := Visit(g, from.(left := from.left - 1), active + {s.path}, t);
            Visit(g, from, active, s)
            == if inner.None? then None else Some(inner.value.(verified := inner.value.verified + {s}))
  {
    var inner := from.(left := from.left - 1);
    assert VisitAll(g, inner, active + {s.path}, [t], 0) == Some(inner);
    assert VisitAll(g, inner, active + {s.path}, [t], 1) == Visit(g, inner, active + {s.path}, t);
  }

  lemma TargetResolves(n: Names, order: seq<string>)
    requires n.Ok()
    ensures var b, e := World(n, order), n.At(n.e);
            && Canonicalizes(b.fs) && ResolveExecutable(b, e) == Success(e) && IsElf(b, e)
            && StandsAlone(b, n.At(n.ld)) && LoaderOk(b, "/" + n.ld)
  {
    var b, e := World(n, order), n.At(n.e);
    ElfIs(n, order, n.e);
    ElfIs(n, order, n.ld);
    assert n.lib <= e && n.lib <= n.At(n.ld);
    NameComponents(n.ld);
    assert ResolveLogical(b, "/" + n.ld) == Success(n.At(n.ld));
  }

  /** Whether the tool passes, in terms of the order of its two dependencies. */
  lemma TargetRun(n: Names, first: string, second: string)
    requires n.Ok() && (first == n.d || first == n.l) && (second == n.d || second == n.l)
    ensures var b := World(n, [first, second]);
            var deps := [State(n, first, [n.At(n.x)]), State(n, second, [n.At(n.x)])];
            TargetPasses(b, n.At(n.e)) <==> VisitAll(GraphOf(b), Visited({}, MAX_STARTUP_NODES - 1), {}, deps, 2).Some?
  {
    var order := [first, second];
    var b := World(n, order);
    TargetResolves(n, order);
    ElfIs(n, order, n.e);
    PassesIs(b, n.At(n.e), "/" + n.ld);
    EntryDeps(n, first, second);
    GraphIs(b, State(n, n.e, []));
  }

  /** A dynamic file with a good loader passes when the run over its dependencies does. */
  lemma PassesIs(b: Bundle, path: Path, text: string)
    requires ParseElf(b, path).Some? && ParseElf(b, path).value.interpreter == Some(text) && LoaderOk(b, text)
    ensures TargetPasses(b, path) <==>
              DepsRun(GraphOf(b), Visited({}, MAX_STARTUP_NODES - 1), {}, LibraryState(path, [])).Some?
  {
    assert RunOf(BeginExecutable(UNTOUCHED, path)) == Visited({}, MAX_STARTUP_NODES - 1);
  }

  lemma OrderDecides(n: Names)
    requires n.Ok()
    ensures TargetPasses(World(n, [n.d, n.l]), n.At(n.e)) && !TargetPasses(World(n, [n.l, n.d]), n.At(n.e))
  {
    OrderDecidesIn(n, [n.d, n.l]);
    OrderDecidesIn(n, [n.l, n.d]);
    TargetRun(n, n.d, n.l);
    TargetRun(n, n.l, n.d);
  }

  lemma OrderDecidesIn(n: Names, order: seq<string>)
    requires n.Ok()
    ensures var g, start := GraphOf(World(n, order)), Visited({}, MAX_STARTUP_NODES - 1);
            var d, l := State(n, n.d, [n.At(n.x)]), State(n, n.l, [n.At(n.x)]);
            VisitAll(g, start, {}, [d, l], 2).Some? && VisitAll(g, start, {}, [l, d], 2).None?
  {
    var b := World(n, order);
    var d, l, again := State(n, n.d, [n.At(n.x)]), State(n, n.l, [n.At(n.x)]), State(n, n.d, [n.At(n.y), n.At(n.x)]);
    DirectDeps(n, order);
    BackDeps(n, order);
    ReturnDeps(n, order);
    GraphIs(b, d);
    GraphIs(b, l);
    GraphIs(b, again);
    SnocEqual(n.lib, n.d, n.l);
    RunsDiffer(GraphOf(b), d, l, again, MAX_STARTUP_NODES - 1);
  }

  /**
    The audit accepts the tool when it lists D before L, and refuses it the other way round,
    although the two bundles have the same files.
   */
  method OrderOfNeededMatters(n: Names) returns (accepted: bool, swapped: bool)
    requires n.Ok()
    ensures accepted && !swapped
  {
    OrderDecides(n);
    TargetResolves(n, [n.d, n.l]);
    TargetResolves(n, [n.l, n.d]);
    var first := VerifyStartupClosure(World(n, [n.d, n.l]), n.At(n.ld), [n.At(n.e)]);
    var second := VerifyStartupClosure(World(n, [n.l, n.d]), n.At(n.ld), [n.At(n.e)]);
    accepted, swapped := first.Success?, second.Success?;
  }

  /** The states that the accepting order verifies settle every graph with these dependencies. */
  lemma PairSettles(g: Graph, d: LibraryState, l: LibraryState, again: LibraryState)
    requires IsEntry(g, d) && IsEntry(g, l) && again.path == d.path
    requires DepsOf(g, d) == Some([l]) && DepsOf(g, l) == Some([again])
    ensures Settled(g, {d, l})
  {
    assert Edge(g, d, l) && Edge(g, l, again);
    assert LoadTrail(g, [d]) && EndsIn([d], d);
    var trail := [d, l];
    assert LoadTrail(g, trail) && EndsIn(trail, l);
    assert trail[0].path == again.path;
    assert OnTrail(trail, again.path);
    assert LeadsBack(g, again.path, l);
    assert Relies(g, {d, l}, d, l) && Relies(g, {d, l}, l, again);
    assert Exact(g, {d, l}, d) && Exact(g, {d, l}, l);
    forall s, t | s in {d, l} && Edge(g, s, t)
      ensures PathVerified({d, l}, t.path)
    {
      assert d in {d, l} && l in {d, l};
      assert t == l || t == again;
    }
  }

  lemma TargetIsDynamic(n: Names, order: seq<string>)
    requires n.Ok()
    ensures Dynamic(World(n, order), n.At(n.e))
  {
    TargetResolves(n, order);
    ElfIs(n, order, n.e);
  }

  function Pair(n: Names): set<LibraryState> {
    {State(n, n.d, [n.At(n.x)]), State(n, n.l, [n.At(n.x)])}
  }

  lemma PairIsSound(n: Names, first: string, second: string)
    requires n.Ok() && ((first == n.d && second == n.l) || (first == n.l && second == n.d))
    ensures Settled(GraphOf(World(n, [first, second])), Pair(n))
  {
    var order := [first, second];
    var b := World(n, order);
    var d, l, again := State(n, n.d, [n.At(n.x)]), State(n, n.l, [n.At(n.x)]), State(n, n.d, [n.At(n.y), n.At(n.x)]);
    EntryDeps(n, first, second);
    DirectDeps(n, order);
    BackDeps(n, order);
    GraphIs(b, d);
    GraphIs(b, l);
    TargetIsDynamic(n, order);
    assert LoadedBy(b, n.At(n.e), d) && LoadedBy(b, n.At(n.e), l);
    PairSettles(GraphOf(b), d, l, again);
  }

  lemma EntryIsOk(n: Names, first: string, second: string)
    requires n.Ok() && ((first == n.d && second == n.l) || (first == n.l && second == n.d))
    ensures ElfEntryOk(World(n, [first, second]), n.At(n.e), [], Pair(n))
  {
    var order := [first, second];
    TargetResolves(n, order);
    ElfIs(n, order, n.e);
    EntryDeps(n, first, second);
  }

  /**
    In either order there is a sound finished audit that accepts the tool, so the audit also
    refuses what some audit accepts.
   */
  lemma BothOrdersAreAcceptable(n: Names, first: string, second: string)
    requires n.Ok() && ((first == n.d && second == n.l) || (first == n.l && second == n.d))
    ensures Acceptable(World(n, [first, second]), [n.At(n.e)])
  {
    TargetResolves(n, [first, second]);
    PairIsSound(n, first, second);
    EntryIsOk(n, first, second);
    SingleIsAccepted(World(n, [first, second]), n.At(n.e), Pair(n));
  }

  /**
    In the accepted bundle the audit's own search, with the directories that each step
    inherits, leads from the tool to a library state that finds the wrong file: the claim
    about load chains needs its condition.
   */
  lemma AcceptedChainFails(n: Names)
    requires n.Ok()
    ensures var b := World(n, [n.d, n.l]);
            var chain := [State(n, n.d, [n.At(n.x)]), State(n, n.l, [n.At(n.x)]), State(n, n.d, [n.At(n.y), n.At(n.x)])];
            LoadChain(b, n.At(n.e), chain) && !AllProvided(b, chain[2])
  {
    var order := [n.d, n.l];
    var b := World(n, order);
    EntryDeps(n, n.d, n.l);
    DirectDeps(n, order);
    BackDeps(n, order);
    ReturnDeps(n, order);
    DependencyIsLoadStep(b, State(n, n.e, []), 0);
    DependencyIsLoadStep(b, State(n, n.d, [n.At(n.x)]), 0);
    DependencyIsLoadStep(b, State(n, n.l, [n.At(n.x)]), 0);
    ChainOfThree(b, n.At(n.e), State(n, n.d, [n.At(n.x)]), State(n, n.l, [n.At(n.x)]), State(n, n.d, [n.At(n.y), n.At(n.x)]));
  }

  lemma ChainOfThree(b: Bundle, file: Path, x: LibraryState, y: LibraryState, z: LibraryState)
    requires LoadStep(b, LibraryState(file, []), x) && LoadStep(b, x, y) && LoadStep(b, y, z)
    ensures LoadChain(b, file, [x, y, z])
  {
  }

  /** Indeed D leads back to itself there, and search directories are inherited. */
  lemma AcceptedChainReturns(n: Names)
    requires n.Ok()
    ensures !OrderFree(World(n, [n.d, n.l]))
  {
    var order := [n.d, n.l];
    var b := World(n, order);
    ElfIs(n, order, n.e);
    assert ParseElf(b, n.At(n.e)).Some?;
    var d, l, again := State(n, n.d, [n.At(n.x)]), State(n, n.l, [n.At(n.x)]), State(n, n.d, [n.At(n.y), n.At(n.x)]);
    EntryDeps(n, n.d, n.l);
    DirectDeps(n, order);
    BackDeps(n, order);
    GraphIs(b, d);
    GraphIs(b, l);
    TargetIsDynamic(n, order);
    assert LoadedBy(b, n.At(n.e), d);
    ReturnsTo(GraphOf(b), d, l, again);
  }

  lemma ReturnsTo(g: Graph, d: LibraryState, l: LibraryState, again: LibraryState)
    requires IsEntry(g, d) && Edge(g, d, l) && Edge(g, l, again) && again.path == d.path
    ensures !NoReturn(g)
  {
    var chain := [d, l, again];
    assert LoadTrail(g, chain);
    assert chain[0].path == chain[2].path;
    assert !DistinctPaths(chain);
  }

  lemma DependencyIsLoadStep(b: Bundle, s: LibraryState, i: nat)
    requires Deps(b, s).Some? && i < |Deps(b, s).value|
    ensures LoadStep(b, s, Deps(b, s).value[i])
  {
    assert LoadsAt(b, s, i, Deps(b, s).value[i]);
  }
}
