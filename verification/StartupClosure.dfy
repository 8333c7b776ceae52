/**
  What an accepted startup audit guarantees about whole runs: every library chain can be
  loaded, and no script chain can return to a path it has visited.
 */
module StartupClosure {
  import opened Wrappers
  import opened Text
  import opened Bundle
  import opened LibraryRuns
  import opened StartupSearch
  import opened Startup
  import opened StartupWalks
  import opened StartupVerifier

  // ----- Libraries -----

  /**
    In every accepted bundle, each DT_NEEDED of each verified library state has a provider
    with the right name and versions. The provider is verified in some context, and either
    in exactly the context in which it is loaded here, or it leads back to this state.
   */
  lemma LibraryClosure(b: Bundle, a: Audit, targets: seq<Path>, s: LibraryState, i: nat) returns (provider: Path)
    requires Accepts(b, a, targets) && s in a.verifiedLibraries
    requires Planned(b, s) ==> i < |InfoOf(b, s).needed|
    ensures ProvidesAt(b, s, i, provider)
    ensures PathVerified(a.verifiedLibraries, provider)
    ensures ChildOf(b, s, provider) in a.verifiedLibraries || LeadsBack(GraphOf(b), provider, s)
  {
    var g := GraphOf(b);
    assert Exact(g, a.verifiedLibraries, s);
    GraphIs(b, s);
    var t := Deps(b, s).value[i];
    assert t in Deps(b, s).value;
    provider := t.path;
    assert Relies(g, a.verifiedLibraries, s, t);
    assert Edge(g, s, t);
  }

  /** The search for one DT_NEEDED of `s` comes to `t`, in the context that `s` passes on. */
  ghost predicate LoadStep(b: Bundle, s: LibraryState, t: LibraryState) {
    Planned(b, s) && exists i: nat :: LoadsAt(b, s, i, t)
  }

  ghost predicate LoadsAt(b: Bundle, s: LibraryState, i: nat, t: LibraryState)
    requires Planned(b, s)
  {
    && i < |InfoOf(b, s).needed|
    && Finds(b, PlanOf(b, s).search, InfoOf(b, s).needed[i], t.path)
    && t == ChildOf(b, s, t.path)
  }

  /** Load steps from `file` on, each library inheriting what its loader passes on. */
  ghost predicate LoadChain(b: Bundle, file: Path, chain: seq<LibraryState>) {
    && (chain != [] ==> LoadStep(b, LibraryState(file, []), chain[0]))
    && forall i | 0 <= i < |chain| - 1 :: StepAt(b, chain, i)
  }

  ghost predicate StepAt(b: Bundle, chain: seq<LibraryState>, i: nat) {
    i + 1 < |chain| && LoadStep(b, chain[i], chain[i + 1])
  }

  /** Where everything is provided, the search comes to a dependency. */
  lemma LoadStepIsDependency(b: Bundle, s: LibraryState, t: LibraryState)
    requires Deps(b, s).Some? && LoadStep(b, s, t)
    ensures t in Deps(b, s).value
  {
    var i: nat :| LoadsAt(b, s, i, t);
    var found := Provider(b, s, i).value;
    FindsIsUnique(b, PlanOf(b, s).search, InfoOf(b, s).needed[i], found, t.path);
    assert Deps(b, s).value[i] == t;
  }

  /**
    No chain of DT_NEEDED entries from an accepted executable, of any length and with the
    search directories that each step inherits, comes to a library that is missing,
    misnamed or too old, provided that the verified states rely on each other only. They do
    whenever nothing is inherited or no library leads back to itself.
   */
  lemma EveryLoadChainIsLoadable(
    b: Bundle, a: Audit, targets: seq<Path>, s: ExecutableState, chain: seq<LibraryState>, i: nat)
    requires Accepts(b, a, targets) && (OrderFree(b) || Closed(GraphOf(b), a.verifiedLibraries))
    requires s in a.rank && IsElf(b, s.path)
    requires i < |chain| && LoadChain(b, s.path, chain)
    ensures chain[i] in a.verifiedLibraries && AllProvided(b, chain[i])
  {
    if OrderFree(b) {
      VerifiedIsClosed(b, a.verifiedLibraries);
    }
    ChainStarts(b, a, s, chain[0]);
    ChainStays(b, a.verifiedLibraries, chain, i);
  }

  lemma {:induction false} ChainStays(b: Bundle, closed: set<LibraryState>, chain: seq<LibraryState>, i: nat)
    requires Closed(GraphOf(b), closed) && i < |chain| && chain[0] in closed
    requires forall k | 0 <= k < |chain| - 1 :: StepAt(b, chain, k)
    ensures chain[i] in closed && AllProvided(b, chain[i])
  {
    if i > 0 {
      ChainStays(b, closed, chain, i - 1);
      assert StepAt(b, chain, i - 1);
      ChainGoesOn(b, closed, chain[i - 1], chain[i]);
    }
    ClosedIsProvided(b, closed, chain[i]);
  }

  lemma ClosedIsProvided(b: Bundle, closed: set<LibraryState>, s: LibraryState)
    requires Closed(GraphOf(b), closed) && s in closed
    ensures AllProvided(b, s) && Satisfied(b, s, closed)
  {
    assert ClosedAt(GraphOf(b), closed, s);
    GraphIs(b, s);
  }

  lemma ChainGoesOn(b: Bundle, closed: set<LibraryState>, s: LibraryState, t: LibraryState)
    requires Closed(GraphOf(b), closed) && s in closed && LoadStep(b, s, t)
    ensures t in closed
  {
    ClosedIsProvided(b, closed, s);
    LoadStepIsDependency(b, s, t);
  }

  lemma ChainStarts(b: Bundle, a: Audit, s: ExecutableState, t: LibraryState)
    requires Sound(b, a) && s in a.rank && IsElf(b, s.path) && LoadStep(b, LibraryState(s.path, []), t)
    ensures t in a.verifiedLibraries
  {
    EntryProvides(b, a, s);
    LoadStepIsDependency(b, LibraryState(s.path, []), t);
  }

  /** An accepted ELF file that loads anything has all it loads verified. */
  lemma EntryProvides(b: Bundle, a: Audit, s: ExecutableState)
    requires Sound(b, a) && s in a.rank && IsElf(b, s.path)
    requires Planned(b, LibraryState(s.path, [])) && InfoOf(b, LibraryState(s.path, [])).needed != []
    ensures Satisfied(b, LibraryState(s.path, []), a.verifiedLibraries)
  {
    VerifiedFormat(b, a, s);
  }

  // ----- Scripts -----

  /**
    From an accepted tool, control never returns to a path it has been handed to before,
    whatever mix of interpreters and `env` commands it goes through, and no walk is longer
    than the state budget.
   */
  lemma StartupGraphIsAcyclic(b: Bundle, a: Audit, targets: seq<Path>, target: Path, paths: seq<Path>)
    requires Accepts(b, a, targets) && target in targets
    requires paths != [] && Walk(b, paths)
    requires ResolveExecutable(b, target) == Success(paths[0])
    ensures forall i, j | 0 <= i < j < |paths| :: paths[i] != paths[j]
    ensures |paths| <= MAX_STARTUP_NODES
  {
    var at :| 0 <= at < |targets| && targets[at] == target;
    assert Accepted(b, a.rank, targets[at]);
    var s := ExecutableState(paths[0], [], 0);
    forall i, j | 0 <= i < j < |paths|
      ensures paths[i] != paths[j]
    {
      WalkSlice(b, paths, 0, i + 1);
      WalkSlice(b, paths, i, j + 1);
      var t := LiftWalk(b, a, s, paths[0..i + 1]);
      NoClosedWalk(b, a, t, paths[i..j + 1]);
    }
    var last := LiftWalk(b, a, s, paths);
    assert RanksBounded(a.rank);
  }
}
