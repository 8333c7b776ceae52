/**
  Where a DT_NEEDED entry is found: the search order of one ELF object, what counts as an
  acceptable provider, and the graph of library states this spans.
 */
module StartupSearch {
  import opened Wrappers
  import opened Text
  import opened Bundle
  import opened LibraryRuns

  // ----- Search order of one ELF object -----

  /** First occurrences, in order. */
  function Dedup(paths: seq<Path>): (kept: seq<Path>)
    ensures forall p :: p in kept <==> p in paths
    ensures forall i, j | 0 <= i < j < |kept| :: kept[i] != kept[j]
  {
    if paths == [] then
      []
    else
      var rest := Dedup(paths[..|paths| - 1]);
      assert paths == paths[..|paths| - 1] + [paths[|paths| - 1]];
      if paths[|paths| - 1] in rest then rest else rest + [paths[|paths| - 1]]
  }

  /** The directory named by one `$ORIGIN`-relative entry, if the entry has that form. */
  function ExpandEntry(b: Bundle, origin: Path, text: string): Option<Path> {
    var suffix :-
      if "$ORIGIN" <= text then Some(text[7..])
      else if "${ORIGIN}" <= text then Some(text[9..])
      else None;
    if (suffix != "" && suffix[0] != '/') || '$' in suffix then None
    else
      var directory := origin + Components(suffix);
      match b.fs.canonicalize(directory)
      case None => Some(directory)
      case Some(canonical) => if b.payloadRoot <= canonical then Some(canonical) else None
  }

  function ExpandEntries(b: Bundle, origin: Path, entries: seq<string>): Option<seq<Path>> {
    if entries == [] then
      Some([])
    else
      var first :- ExpandEntry(b, origin, entries[0]);
      var rest :- ExpandEntries(b, origin, entries[1..]);
      Some([first] + rest)
  }

  function ExpandValues(b: Bundle, origin: Path, values: seq<string>): Option<seq<Path>> {
    if values == [] then
      Some([])
    else
      var first :- ExpandEntries(b, origin, Split(values[0], ':'));
      var rest :- ExpandValues(b, origin, values[1..]);
      Some(first + rest)
  }

  datatype SearchPlan = SearchPlan(search: seq<Path>, childInherited: seq<Path>)

  /** DT_RPATH is expanded, and so checked, even where DT_RUNPATH makes the loader ignore it. */
  function PlanSearch(b: Bundle, file: Path, info: ElfInfo, inherited: seq<Path>)
    : Option<SearchPlan>
  {
    if file == [] then
      None
    else
      var origin := file[..|file| - 1];
      var declared :- ExpandValues(b, origin, info.rpaths);
      var runpaths :- ExpandValues(b, origin, info.runpaths);
      var localRpaths := if info.runpaths == [] then declared else [];
      var ranked := Dedup(localRpaths + inherited);
      Some(SearchPlan(Dedup(ranked + b.libraryDirs + runpaths), ranked))
  }

  /** No ELF file of the bundle has a DT_RPATH that the loader would honour. */
  ghost predicate RpathFree(b: Bundle) {
    forall p | ParseElf(b, p).Some? ::
      ParseElf(b, p).value.rpaths == [] || ParseElf(b, p).value.runpaths != []
  }

  // ----- One DT_NEEDED entry -----

  /** `found` is the file behind the first entry named `needed` along `search`. */
  ghost predicate FindsAt(b: Bundle, search: seq<Path>, needed: string, i: nat, found: Path) {
    && i < |search|
    && (forall k | 0 <= k < i :: Lookup(b, search[k] + Components(needed)) == Missing)
    && Lookup(b, search[i] + Components(needed)) == Present
    && ResolveFile(b, search[i] + Components(needed)) == Success(found)
  }

  ghost predicate Finds(b: Bundle, search: seq<Path>, needed: string, found: Path) {
    exists i: nat :: FindsAt(b, search, needed, i, found)
  }

  /** The search has at most one outcome. */
  lemma FindsIsUnique(b: Bundle, search: seq<Path>, needed: string, x: Path, y: Path)
    requires Finds(b, search, needed, x) && Finds(b, search, needed, y)
    ensures x == y
  {
    var i: nat :| FindsAt(b, search, needed, i, x);
    var j: nat :| FindsAt(b, search, needed, j, y);
    assert i == j;
  }

  predicate NamesSoname(info: ElfInfo, needed: string) {
    info.soname == None || info.soname == Some(needed)
  }

  predicate ProvidesVersions(info: ElfInfo, needed: string, dependency: ElfInfo) {
    needed in info.requiredVersions ==> info.requiredVersions[needed] <= dependency.providedVersions
  }

  /** `found` is an acceptable provider of `needed` for an object described by `info`. */
  ghost predicate Provides(b: Bundle, info: ElfInfo, search: seq<Path>, needed: string, found: Path) {
    && needed != "" && '/' !in needed
    && Finds(b, search, needed, found)
    && ParseElf(b, found).Some?
    && NamesSoname(ParseElf(b, found).value, needed)
    && ProvidesVersions(info, needed, ParseElf(b, found).value)
  }

  // ----- The graph of library states -----

  predicate Planned(b: Bundle, s: LibraryState) {
    ParseElf(b, s.path).Some? && PlanSearch(b, s.path, ParseElf(b, s.path).value, s.inherited).Some?
  }

  function InfoOf(b: Bundle, s: LibraryState): ElfInfo
    requires Planned(b, s)
  {
    ParseElf(b, s.path).value
  }

  function PlanOf(b: Bundle, s: LibraryState): SearchPlan
    requires Planned(b, s)
  {
    PlanSearch(b, s.path, ParseElf(b, s.path).value, s.inherited).value
  }

  /** `found` is an acceptable provider for entry `i` of `s`. */
  ghost predicate ProvidesAt(b: Bundle, s: LibraryState, i: nat, found: Path) {
    && Planned(b, s) && i < |InfoOf(b, s).needed|
    && Provides(b, InfoOf(b, s), PlanOf(b, s).search, InfoOf(b, s).needed[i], found)
  }

  /** The provider of entry `i`, if the search finds one that passes the checks. */
  ghost function Provider(b: Bundle, s: LibraryState, i: nat): (r: Option<Path>)
    ensures r.Some? ==> ProvidesAt(b, s, i, r.value)
    ensures r.None? ==> forall found :: !ProvidesAt(b, s, i, found)
  {
    if exists found :: ProvidesAt(b, s, i, found) then
      var found :| ProvidesAt(b, s, i, found);
      Some(found)
    else
      None
  }

  lemma ProviderIs(b: Bundle, s: LibraryState, i: nat, found: Path)
    requires ProvidesAt(b, s, i, found)
    ensures Provider(b, s, i) == Some(found)
  {
    FindsIsUnique(b, PlanOf(b, s).search, InfoOf(b, s).needed[i], Provider(b, s, i).value, found);
  }

  /** The state of a dependency of `s`: it inherits what `s` passes on. */
  function ChildOf(b: Bundle, s: LibraryState, path: Path): LibraryState
    requires Planned(b, s)
  {
    LibraryState(path, PlanOf(b, s).childInherited)
  }

  ghost predicate AllProvided(b: Bundle, s: LibraryState) {
    Planned(b, s) && forall i | 0 <= i < |InfoOf(b, s).needed| :: Provider(b, s, i).Some?
  }

  /** The dependencies of a state in order; none when one of them has no acceptable provider. */
  ghost function Deps(b: Bundle, s: LibraryState): (r: Option<seq<LibraryState>>)
    ensures r.Some? <==> AllProvided(b, s)
    ensures r.Some? ==> |r.value| == |InfoOf(b, s).needed|
    ensures r.Some? ==> forall i | 0 <= i < |r.value| ::
              Provider(b, s, i).Some? && r.value[i] == ChildOf(b, s, Provider(b, s, i).value)
  {
    if AllProvided(b, s) then
      Some(seq(|InfoOf(b, s).needed|, i requires 0 <= i < |InfoOf(b, s).needed| => ChildOf(b, s, Provider(b, s, i).value)))
    else
      None
  }

  /** A file that is started through a loader. */
  predicate Dynamic(b: Bundle, file: Path) {
    && ResolveExecutable(b, file) == Success(file)
    && ParseElf(b, file).Some? && ParseElf(b, file).value.interpreter.Some?
  }

  /** Some dynamic executable loads the state when it starts with nothing to inherit. */
  ghost predicate StartsWith(b: Bundle, t: LibraryState) {
    exists file :: LoadedBy(b, file, t)
  }

  ghost predicate LoadedBy(b: Bundle, file: Path, t: LibraryState) {
    Dynamic(b, file) && Deps(b, LibraryState(file, [])).Some? && t in Deps(b, LibraryState(file, [])).value
  }

  ghost function GraphOf(b: Bundle): Graph {
    Graph(s => Deps(b, s), t => StartsWith(b, t))
  }

  lemma GraphIs(b: Bundle, s: LibraryState)
    ensures DepsOf(GraphOf(b), s) == Deps(b, s)
    ensures IsEntry(GraphOf(b), s) <==> StartsWith(b, s)
  {
  }

  /** Names a state whose dependencies are to be looked up in the bundle. */
  predicate Consulted(s: LibraryState) {
    true
  }

  /** The graph is that of the bundle; `Consulted` says where this is used. */
  ghost predicate Represents(g: Graph, b: Bundle) {
    forall s {:trigger Consulted(s)} | Consulted(s) :: DepsOf(g, s) == Deps(b, s)
  }

  lemma GraphRepresents(b: Bundle)
    ensures Represents(GraphOf(b), b)
  {
  }

  // ----- Bundles without DT_RPATH -----

  lemma RpathFreeChild(b: Bundle, s: LibraryState, t: LibraryState)
    requires RpathFree(b) && s.inherited == [] && Deps(b, s).Some? && t in Deps(b, s).value
    ensures t.inherited == []
  {
    var i :| 0 <= i < |Deps(b, s).value| && Deps(b, s).value[i] == t;
    assert PlanOf(b, s).childInherited == Dedup([]);
  }

  /** Without effective DT_RPATH no state that can be reached inherits anything. */
  lemma {:induction false} RpathFreeTrail(b: Bundle, trail: seq<LibraryState>, n: nat)
    requires RpathFree(b) && LoadTrail(GraphOf(b), trail) && n < |trail|
    ensures trail[n].inherited == []
  {
    if n == 0 {
      GraphIs(b, trail[0]);
      var file :| LoadedBy(b, file, trail[0]);
      RpathFreeChild(b, LibraryState(file, []), trail[0]);
    } else {
      RpathFreeTrail(b, trail, n - 1);
      assert Edge(GraphOf(b), trail[n - 1], trail[n - 1 + 1]);
      GraphIs(b, trail[n - 1]);
      RpathFreeChild(b, trail[n - 1], trail[n]);
    }
  }

  /**
    When no state inherits anything, or no chain of dependencies meets a path twice, every
    verified state relies on verified states only.
   */
  lemma VerifiedIsClosed(b: Bundle, verified: set<LibraryState>)
    requires RpathFree(b) || NoReturn(GraphOf(b))
    requires Settled(GraphOf(b), verified)
    ensures Closed(GraphOf(b), verified)
  {
    var g := GraphOf(b);
    if NoReturn(g) {
      NoReturnIsClosed(g, verified);
    } else {
      forall s, t | s in verified && Edge(g, s, t)
        ensures t in verified
      {
        NothingInherited(b, verified, s);
        GraphIs(b, s);
        RpathFreeChild(b, s, t);
        var u :| u in verified && u.path == t.path;
        NothingInherited(b, verified, u);
        assert u == t;
      }
      EdgesClose(g, verified);
    }
  }

  lemma NothingInherited(b: Bundle, verified: set<LibraryState>, s: LibraryState)
    requires RpathFree(b) && Settled(GraphOf(b), verified) && s in verified
    ensures s.inherited == []
  {
    assert Exact(GraphOf(b), verified, s);
    var trail :| LoadTrail(GraphOf(b), trail) && EndsIn(trail, s);
    RpathFreeTrail(b, trail, |trail| - 1);
  }
}
