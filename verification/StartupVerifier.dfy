/**
  The HostBundle startup audit: a memoised recursion over a possibly cyclic graph of
  scripts, interpreters, ELF files and libraries, with a budget of visited states.
 */
module StartupVerifier {
  import opened Wrappers
  import opened Text
  import opened Bundle
  import opened LibraryRuns
  import opened StartupSearch
  import opened Startup
  import opened StartupWalks

  datatype AuditError =
    | BadPath(path: PathError)
    | BadExecutable(inspect: InspectError)
    | StartupCycle
    | TooManyStates
    | ScriptTooDeep
    | EnvWithoutCommand
    | UndeclaredEnvCommand
    | UnparsableElf
    | LoaderNotStatic
    | NoLibraryDirs
    | NeededWithoutLoader
    | BadSearchPath
    | ForbiddenNeeded
    | UnresolvedNeeded
    | WrongSoname
    | MissingVersion
    | LauncherNotStatic

  function PathStep(r: Result<Path, PathError>): (s: Result<Path, AuditError>)
    ensures s.Success? <==> r.Success?
    ensures s.Success? ==> s.value == r.value
  {
    match r
    case Success(path) => Success(path)
    case Failure(error) => Failure(BadPath(error))
  }

  /** The loader must resolve inside the payload, stand alone, and have directories to search. */
  function CheckLoader(b: Bundle, text: string): (r: Result<(), AuditError>)
    ensures r.Success? <==> LoaderOk(b, text)
  {
    match ResolveLogical(b, text)
    case Failure(error) => Failure(BadPath(error))
    case Success(loader) =>
      if !StandsAlone(b, loader) then Failure(LoaderNotStatic)
      else if b.libraryDirs == [] then Failure(NoLibraryDirs)
      else Success(())
  }

  /** Drops every path that already occurred, keeping the order. */
  method DeduplicatePaths(paths: seq<Path>) returns (kept: seq<Path>)
    ensures kept == Dedup(paths)
  {
    var seen: set<Path> := {};
    kept := [];
    for i := 0 to |paths|
      invariant kept == Dedup(paths[..i])
      invariant seen == set p | p in kept
    {
      assert paths[..i + 1][..i] == paths[..i];
      if paths[i] !in seen {
        seen := seen + {paths[i]};
        kept := kept + [paths[i]];
      }
    }
    assert paths[..|paths|] == paths;
  }

  /** Walks the search path; an entry that exists but does not resolve ends the search. */
  method ResolveNeeded(b: Bundle, needed: string, search: seq<Path>) returns (r: Result<Path, AuditError>)
    ensures r.Success? ==> Finds(b, search, needed, r.value)
    ensures r.Failure? ==> forall found :: !Finds(b, search, needed, found)
  {
    for i := 0 to |search|
      invariant forall k | 0 <= k < i :: Lookup(b, search[k] + Components(needed)) == Missing
    {
      var candidate := search[i] + Components(needed);
      match Lookup(b, candidate) {
        case Missing =>
        case Unreadable =>
          return Failure(UnresolvedNeeded);
        case Present =>
          match ResolveFile(b, candidate) {
            case Failure(error) => return Failure(BadPath(error));
            case Success(found) =>
              assert FindsAt(b, search, needed, i, found);
              return Success(found);
          }
      }
    }
    return Failure(UnresolvedNeeded);
  }

  /** The call succeeded exactly when the run does, and left its verified states and budget. */
  ghost predicate Follows(run: Option<Visited>, ok: bool, verified: set<LibraryState>, visited: nat) {
    && (ok <==> run.Some?)
    && (ok ==> verified == run.value.verified && visited + run.value.left == MAX_STARTUP_NODES)
  }

  /** What an ELF entry must pass, for any bundle. */
  ghost predicate EntryPasses(b: Bundle, a: Audit, path: Path, inherited: seq<Path>)
    requires a.visited <= MAX_STARTUP_NODES
  {
    match ParseElf(b, path)
    case None => false
    case Some(info) =>
      match info.interpreter
      case None => info.needed == []
      case Some(text) => LoaderOk(b, text) && DepsRun(GraphOf(b), RunOf(a), {}, LibraryState(path, inherited)).Some?
  }

  class StartupVerifier {
    const bundle: Bundle
    var activeExecutables: set<Path>
    var activeLibraries: set<Path>
    var verifiedExecutables: set<ExecutableState>
    var verifiedLibraries: set<LibraryState>
    var visitedStates: nat
    ghost var rank: map<ExecutableState, nat>

    ghost function View(): Audit
      reads this
    {
      Audit(activeExecutables, activeLibraries, rank, verifiedLibraries, visitedStates)
    }

    /** The part of the audit that libraries change. */
    ghost function Run(): Visited
      reads this
      requires visitedStates <= MAX_STARTUP_NODES
    {
      Visited(verifiedLibraries, MAX_STARTUP_NODES - visitedStates)
    }

    ghost predicate Valid()
      reads this
    {
      && Canonicalizes(bundle.fs)
      && rank.Keys == verifiedExecutables
      && Sound(bundle, View())
    }

    constructor (b: Bundle)
      requires Canonicalizes(b.fs)
      ensures Valid() && bundle == b
      ensures View() == Audit({}, {}, map[], {}, 0)
    {
      bundle := b;
      activeExecutables, activeLibraries := {}, {};
      verifiedExecutables, verifiedLibraries := {}, {};
      visitedStates, rank := 0, map[];
    }

    /** Counts one more state, failing when the budget is spent. */
    method BumpState() returns (r: Result<(), AuditError>)
      modifies this`visitedStates
      ensures visitedStates == old(visitedStates) + 1
      ensures r.Success? <==> visitedStates <= MAX_STARTUP_NODES
    {
      visitedStates := visitedStates + 1;
      if visitedStates > MAX_STARTUP_NODES {
        return Failure(TooManyStates);
      }
      return Success(());
    }

    /** Audits a tool, interpreter or `env` command; a path met while active is a cycle. */
    method AuditExecutable(path: Path, inherited: seq<Path>, depth: nat, ghost goal: Audit, ghost trail: seq<ExecutableState>)
      returns (r: Result<(), AuditError>)
      requires Valid() && inherited == []
      modifies this
      ensures r.Success? ==> Valid() && Extends(old(View()), View())
      ensures r.Success? ==>
                && ResolveExecutable(bundle, path).Success?
                && ExecutableState(ResolveExecutable(bundle, path).value, inherited, depth) in verifiedExecutables
      ensures ResolveExecutable(bundle, path).Success? ==>
                PassesIfElf(bundle, old(View()), ExecutableState(ResolveExecutable(bundle, path).value, inherited, depth), r.Success?)
      ensures CertifiedExecutable(bundle, goal, old(View()), trail, path, inherited, depth) ==>
                r.Success? && Within(bundle, goal, View(), trail)
      decreases MAX_STARTUP_NODES - visitedStates, 1
    {
      var canonical :- PathStep(ResolveExecutable(bundle, path));
      ResolvedIsStable(bundle, path);
      var state := ExecutableState(canonical, inherited, depth);
      if state in verifiedExecutables {
        return Success(());
      }
      CertifiedState(bundle, goal, View(), trail, path, state);
      if canonical in activeExecutables {
        return Failure(StartupCycle);
      }
      r := AuditNew(state, goal, trail);
    }

    /** Audits an executable that is neither verified nor active, as the active one. */
    method AuditNew(state: ExecutableState, ghost goal: Audit, ghost trail: seq<ExecutableState>) returns (r: Result<(), AuditError>)
      requires Valid() && state.inherited == []
      requires ResolveExecutable(bundle, state.path) == Success(state.path)
      requires state !in verifiedExecutables && state.path !in activeExecutables
      modifies this
      ensures r.Success? ==> Valid() && Extends(old(View()), View()) && state in verifiedExecutables
      ensures PassesIfElf(bundle, old(View()), state, r.Success?)
      ensures CertifiedNew(bundle, goal, old(View()), trail, state) ==> r.Success? && Within(bundle, goal, View(), trail)
      decreases MAX_STARTUP_NODES - visitedStates, 0
    {
      ghost var before := View();
      activeExecutables := activeExecutables + {state.path};
      var _ :- BumpState();
      BeginExecutableSound(bundle, before, state.path);
      assert View() == BeginExecutable(before, state.path);
      r := AuditFormat(state, goal, trail + [state]);
      if r.Failure? {
        activeExecutables := activeExecutables - {state.path};
      } else {
        CertifiedClose(bundle, goal, View(), trail, state);
        CloseExecutable(state, before);
      }
    }

    /** Audits the file behind an active executable as what it is, an ELF file or a script. */
    method AuditFormat(state: ExecutableState, ghost goal: Audit, ghost trail: seq<ExecutableState>) returns (r: Result<(), AuditError>)
      requires Valid() && state.inherited == []
      requires ResolveExecutable(bundle, state.path) == Success(state.path)
      requires state.path in activeExecutables && state !in rank
      modifies this
      ensures r.Success? ==> Valid() && Extends(old(View()), View())
      ensures r.Success? ==> ExecutableOk(bundle, rank[state := |rank|], state, verifiedLibraries)
      ensures IsElf(bundle, state.path) ==> (r.Success? <==> EntryPasses(bundle, old(View()), state.path, state.inherited))
      ensures CertifiedFormat(bundle, goal, old(View()), trail, state) ==> r.Success? && Within(bundle, goal, View(), trail)
      decreases MAX_STARTUP_NODES - visitedStates, 5
    {
      CertifiedParts(bundle, goal, View(), trail, state);
      match Inspect(bundle.fs, state.path) {
        case Failure(error) =>
          return Failure(BadExecutable(error));
        case Success(Elf(linkage)) =>
          r := AuditElfEntry(state.path, state.inherited, goal, trail);
          if r.Success? {
            RankElf(bundle, rank, state, linkage, verifiedLibraries);
          }
        case Success(Script(shebang)) =>
          if state.depth >= MAX_SCRIPT_DEPTH {
            r := Failure(ScriptTooDeep);
          } else {
            r := AuditScript(state, shebang, goal, trail);
            if r.Success? {
              RankScript(bundle, rank, state, shebang, verifiedLibraries);
            }
          }
      }
    }

    /** Takes the audited path off the active set and records its state as verified. */
    method CloseExecutable(state: ExecutableState, ghost before: Audit)
      requires Valid()
      requires state.path !in before.activeExecutables && state !in before.rank
      requires Extends(BeginExecutable(before, state.path), View())
      requires ExecutableOk(bundle, rank[state := |rank|], state, verifiedLibraries)
      modifies this
      ensures Valid() && View() == EndExecutable(old(View()), state)
      ensures Extends(before, View()) && state in verifiedExecutables
    {
      EndExecutableSound(bundle, before, View(), state);
      activeExecutables := activeExecutables - {state.path};
      rank := rank[state := |rank|];
      verifiedExecutables := verifiedExecutables + {state};
    }

    /** Audits a script's interpreter one level deeper, and a managed `env` command afresh. */
    method AuditScript(state: ExecutableState, shebang: Shebang, ghost goal: Audit, ghost trail: seq<ExecutableState>)
      returns (r: Result<(), AuditError>)
      requires Valid() && state.inherited == []
      modifies this
      ensures r.Success? ==> Valid() && Extends(old(View()), View())
      ensures r.Success? ==>
                && Successors(bundle, state, shebang).Some?
                && AllRanked(rank, Successors(bundle, state, shebang).value)
      ensures CertifiedScript(bundle, goal, old(View()), trail, state, shebang) ==>
                r.Success? && Within(bundle, goal, View(), trail)
      decreases MAX_STARTUP_NODES - visitedStates, 2
    {
      CertifiedSuccessors(bundle, goal, View(), trail, state, shebang);
      var interpreter :- PathStep(ResolveLogical(bundle, shebang.interpreter));
      ResolvedIsStable(bundle, bundle.payloadRoot + Components(shebang.interpreter));
      ghost var before := View();
      if AsksEnv(shebang) {
        if shebang.argument.None? {
          return Failure(EnvWithoutCommand);
        }
        var command := shebang.argument.value;
        if !PlainCommand(command) || command !in bundle.managedTools {
          return Failure(UndeclaredEnvCommand);
        }
        var _ :- AuditExecutable(interpreter, state.inherited, state.depth + 1, goal, trail);
        ghost var middle := View();
        ghost var next := ExecutableState(interpreter, state.inherited, state.depth + 1);
        assert next in middle.rank;
        CertifiedSuccessors(bundle, goal, View(), trail, state, shebang);
        var _ :- AuditExecutable(bundle.managedTools[command], [], 0, goal, trail);
        ExtendsTransitive(before, middle, View());
        assert next in View().rank;
      } else {
        var _ :- AuditExecutable(interpreter, state.inherited, state.depth + 1, goal, trail);
      }
      SuccessorsRanked(bundle, rank, state, shebang);
      return Success(());
    }

    /** Audits the loader of a dynamic ELF and the libraries it will load. */
    method AuditElfEntry(path: Path, inherited: seq<Path>, ghost goal: Audit, ghost trail: seq<ExecutableState>)
      returns (r: Result<(), AuditError>)
      requires Valid() && inherited == [] && ResolveExecutable(bundle, path) == Success(path)
      modifies this
      ensures r.Success? ==> Valid() && Extends(old(View()), View())
      ensures r.Success? ==> ElfEntryOk(bundle, path, inherited, verifiedLibraries)
      ensures r.Success? <==> EntryPasses(bundle, old(View()), path, inherited)
      ensures Within(bundle, goal, old(View()), trail) && ElfEntryOk(bundle, path, inherited, goal.verifiedLibraries) ==>
                r.Success? && Within(bundle, goal, View(), trail)
      decreases MAX_STARTUP_NODES - visitedStates, 4
    {
      if ParseElf(bundle, path).None? {
        return Failure(UnparsableElf);
      }
      var info := ParseElf(bundle, path).value;
      match info.interpreter {
        case None =>
          if info.needed != [] {
            return Failure(NeededWithoutLoader);
          }
          return Success(());
        case Some(text) =>
          var _ :- CheckLoader(bundle, text);
          r := AuditEntryLibraries(path, info, inherited, goal, trail);
      }
    }

    /** Audits the libraries of a dynamic file while no other library is being audited. */
    method AuditEntryLibraries(path: Path, info: ElfInfo, inherited: seq<Path>, ghost goal: Audit, ghost trail: seq<ExecutableState>)
      returns (r: Result<(), AuditError>)
      requires Valid() && inherited == [] && Dynamic(bundle, path) && ParseElf(bundle, path) == Some(info)
      modifies this
      ensures r.Success? ==> Valid() && Extends(old(View()), View())
      ensures r.Success? ==> Satisfied(bundle, LibraryState(path, inherited), verifiedLibraries)
      ensures r.Success? <==> DepsRun(GraphOf(bundle), old(RunOf(View())), {}, LibraryState(path, inherited)).Some?
      ensures Within(bundle, goal, old(View()), trail) && Satisfied(bundle, LibraryState(path, inherited), goal.verifiedLibraries) ==>
                r.Success? && Within(bundle, goal, View(), trail)
      decreases MAX_STARTUP_NODES - visitedStates, 3
    {
      ghost var before, s := View(), LibraryState(path, inherited);
      CertifiedEntry(bundle, goal, before, trail, s);
      GraphRepresents(bundle);
      r := AuditDependencies(path, info, inherited, GraphOf(bundle));
      if r.Success? {
        EntrySound(bundle, before, path);
        assert View() == WithRun(before, DepsRun(GraphOf(bundle), RunOf(before), {}, s).value);
      }
    }

    /** Audits one library; a library that is already being audited is taken as given. */
    method AuditLibrary(path: Path, inherited: seq<Path>, ghost g: Graph) returns (r: Result<(), AuditError>)
      requires Canonicalizes(bundle.fs) && visitedStates <= MAX_STARTUP_NODES && Represents(g, bundle)
      modifies this`activeLibraries, this`verifiedLibraries, this`visitedStates
      ensures r.Success? ==> activeLibraries == old(activeLibraries) && ResolveFile(bundle, path).Success?
      ensures ResolveFile(bundle, path).Success? ==>
                Follows(Visit(g, old(Run()), old(activeLibraries), LibraryState(ResolveFile(bundle, path).value, inherited)),
                        r.Success?, verifiedLibraries, visitedStates)
      decreases MAX_STARTUP_NODES - visitedStates, 1
    {
      var canonical :- PathStep(ResolveFile(bundle, path));
      var state := LibraryState(canonical, inherited);
      if state in verifiedLibraries {
        return Success(());
      }
      if canonical in activeLibraries {
        return Success(());
      }
      VisitUnfolds(g, Run(), activeLibraries, state);
      UnparsedHasNoDeps(bundle, g, state);
      activeLibraries := activeLibraries + {canonical};
      var _ :- BumpState();
      if ParseElf(bundle, canonical).None? {
        return Failure(UnparsableElf);
      }
      r := AuditDependencies(canonical, ParseElf(bundle, canonical).value, inherited, g);
      activeLibraries := activeLibraries - {canonical};
      if r.Success? {
        verifiedLibraries := verifiedLibraries + {state};
      }
    }

    /** Resolves and audits every DT_NEEDED of one file, in order. */
    method AuditDependencies(file: Path, info: ElfInfo, inherited: seq<Path>, ghost g: Graph) returns (r: Result<(), AuditError>)
      requires Canonicalizes(bundle.fs) && visitedStates <= MAX_STARTUP_NODES && Represents(g, bundle)
      requires ParseElf(bundle, file) == Some(info)
      modifies this`activeLibraries, this`verifiedLibraries, this`visitedStates
      ensures r.Success? ==> activeLibraries == old(activeLibraries)
      ensures Follows(DepsRun(g, old(Run()), old(activeLibraries), LibraryState(file, inherited)),
                      r.Success?, verifiedLibraries, visitedStates)
      decreases MAX_STARTUP_NODES - visitedStates, 2, 1
    {
      ghost var s, from, active := LibraryState(file, inherited), Run(), activeLibraries;
      if PlanSearch(bundle, file, info, inherited).None? {
        assert Consulted(s);
        return Failure(BadSearchPath);
      }
      var plan := PlanSearch(bundle, file, info, inherited).value;
      for i := 0 to |info.needed|
        invariant visitedStates <= MAX_STARTUP_NODES && old(visitedStates) <= visitedStates
        invariant activeLibraries == active
        invariant ProvidedTo(bundle, s, i)
        invariant InStep(g, from, active, s, i, Run())
      {
        ghost var before := Run();
        r := AuditDependency(file, info, plan, i, s, g);
        StepInStep(bundle, g, from, active, s, i, before, r.Success?, verifiedLibraries, visitedStates);
        if r.Failure? {
          return;
        }
      }
      AllInStep(bundle, g, from, active, s, Run());
      return Success(());
    }

    /** Resolves and audits one DT_NEEDED. */
    method AuditDependency(file: Path, info: ElfInfo, plan: SearchPlan, i: nat, ghost s: LibraryState, ghost g: Graph)
      returns (r: Result<(), AuditError>)
      requires Canonicalizes(bundle.fs) && visitedStates <= MAX_STARTUP_NODES && Represents(g, bundle)
      requires s.path == file && Planned(bundle, s) && InfoOf(bundle, s) == info && PlanOf(bundle, s) == plan
      requires i < |info.needed|
      modifies this`activeLibraries, this`verifiedLibraries, this`visitedStates
      ensures r.Success? ==> activeLibraries == old(activeLibraries) && old(visitedStates) <= visitedStates
      ensures StepFollows(bundle, g, old(Run()), old(activeLibraries), s, i, r.Success?, verifiedLibraries, visitedStates)
      decreases MAX_STARTUP_NODES - visitedStates, 2, 0
    {
      var dependency :- ResolveDependency(bundle, file, info, plan, i, s);
      r := AuditLibrary(dependency, plan.childInherited, g);
    }
  }

  /** Finds the provider of one DT_NEEDED entry and checks its name and versions. */
  method ResolveDependency(b: Bundle, file: Path, info: ElfInfo, plan: SearchPlan, i: nat, ghost s: LibraryState)
    returns (r: Result<Path, AuditError>)
    requires Canonicalizes(b.fs) && s.path == file && Planned(b, s)
    requires InfoOf(b, s) == info && PlanOf(b, s) == plan && i < |info.needed|
    ensures r.Success? ==> Provider(b, s, i) == Some(r.value) && ResolveFile(b, r.value) == Success(r.value)
    ensures r.Failure? ==> Provider(b, s, i).None?
  {
    var needed := info.needed[i];
    if needed == "" || '/' in needed {
      return Failure(ForbiddenNeeded);
    }
    var dependency :- ResolveNeeded(b, needed, plan.search);
    OnlyProvider(b, s, i, dependency);
    if ParseElf(b, dependency).None? {
      return Failure(UnparsableElf);
    }
    var found := ParseElf(b, dependency).value;
    if !NamesSoname(found, needed) {
      return Failure(WrongSoname);
    }
    if !ProvidesVersions(info, needed, found) {
      return Failure(MissingVersion);
    }
    FoundIsProvider(b, s, i, dependency);
    return Success(dependency);
  }

  /** What the search finds is the only candidate. */
  lemma OnlyProvider(b: Bundle, s: LibraryState, i: nat, found: Path)
    requires Planned(b, s) && i < |InfoOf(b, s).needed|
    requires Finds(b, PlanOf(b, s).search, InfoOf(b, s).needed[i], found)
    ensures forall other | ProvidesAt(b, s, i, other) :: other == found
  {
    forall other | ProvidesAt(b, s, i, other)
      ensures other == found
    {
      FindsIsUnique(b, PlanOf(b, s).search, InfoOf(b, s).needed[i], other, found);
    }
  }

  // ----- Libraries: the method and the run go in step -----

  /** The first `i` dependencies of `s` have been audited. */
  ghost predicate InStep(g: Graph, from: Visited, active: set<Path>, s: LibraryState, i: nat, now: Visited) {
    DepsOf(g, s).Some? ==>
      i <= |DepsOf(g, s).value| && VisitAll(g, from, active, DepsOf(g, s).value, i) == Some(now)
  }

  ghost predicate ProvidedTo(b: Bundle, s: LibraryState, n: nat) {
    forall i | 0 <= i < n :: Provider(b, s, i).Some?
  }

  /** Auditing entry `i` succeeds exactly when it has a provider whose audit does. */
  ghost predicate StepFollows(
    b: Bundle, g: Graph, from: Visited, active: set<Path>, s: LibraryState, i: nat,
    ok: bool, verified: set<LibraryState>, visited: nat)
    requires Planned(b, s)
  {
    if Provider(b, s, i).None? then !ok
    else Follows(Visit(g, from, active, ChildOf(b, s, Provider(b, s, i).value)), ok, verified, visited)
  }

  lemma AllInStep(b: Bundle, g: Graph, from: Visited, active: set<Path>, s: LibraryState, now: Visited)
    requires Represents(g, b) && Planned(b, s) && InStep(g, from, active, s, |InfoOf(b, s).needed|, now)
    requires ProvidedTo(b, s, |InfoOf(b, s).needed|)
    ensures DepsRun(g, from, active, s) == Some(now)
  {
    assert Consulted(s);
  }

  lemma MissingProvider(b: Bundle, g: Graph, from: Visited, active: set<Path>, s: LibraryState, i: nat)
    requires Represents(g, b) && Planned(b, s) && i < |InfoOf(b, s).needed| && Provider(b, s, i).None?
    ensures DepsRun(g, from, active, s).None?
  {
    assert Consulted(s);
    assert !AllProvided(b, s);
  }

  lemma UnparsedHasNoDeps(b: Bundle, g: Graph, s: LibraryState)
    requires Represents(g, b)
    ensures ParseElf(b, s.path).None? ==> DepsOf(g, s).None?
  {
    assert Consulted(s);
  }

  lemma FoundIsProvider(b: Bundle, s: LibraryState, i: nat, found: Path)
    requires Canonicalizes(b.fs) && ProvidesAt(b, s, i, found)
    ensures Provider(b, s, i) == Some(found) && ResolveFile(b, found) == Success(found)
  {
    ProviderIs(b, s, i, found);
    var search, needed := PlanOf(b, s).search, InfoOf(b, s).needed[i];
    var at: nat :| FindsAt(b, search, needed, at, found);
    ResolvedIsStable(b, search[at] + Components(needed));
  }

  lemma StepInStep(
    b: Bundle, g: Graph, from: Visited, active: set<Path>, s: LibraryState, i: nat, before: Visited,
    ok: bool, verified: set<LibraryState>, visited: nat)
    requires Represents(g, b) && Planned(b, s) && i < |InfoOf(b, s).needed|
    requires ProvidedTo(b, s, i) && InStep(g, from, active, s, i, before)
    requires StepFollows(b, g, before, active, s, i, ok, verified, visited)
    ensures ok ==> visited <= MAX_STARTUP_NODES && ProvidedTo(b, s, i + 1)
    ensures ok ==> InStep(g, from, active, s, i + 1, Visited(verified, MAX_STARTUP_NODES - visited))
    ensures !ok ==> DepsRun(g, from, active, s).None?
  {
    if Provider(b, s, i).None? {
      MissingProvider(b, g, from, active, s, i);
    } else {
      assert Consulted(s);
      if DepsOf(g, s).Some? && !ok {
        var deps := DepsOf(g, s).value;
        VisitAllFails(g, from, active, deps, i + 1, |deps|);
      }
    }
  }

  // ----- What a certificate rules out -----

  predicate IsElf(b: Bundle, path: Path) {
    Inspect(b.fs, path).Success? && Inspect(b.fs, path).value.Elf?
  }

  /** For an ELF file the outcome is determined, certificate or not. */
  ghost predicate PassesIfElf(b: Bundle, a: Audit, s: ExecutableState, ok: bool)
    requires a.visited <= MAX_STARTUP_NODES
  {
    IsElf(b, s.path) ==>
      (ok <==>
         || s in a.rank
         || (&& s.path !in a.activeExecutables && a.visited < MAX_STARTUP_NODES
             && EntryPasses(b, BeginExecutable(a, s.path), s.path, s.inherited)))
  }

  /** The certificate covers this state, and the walk so far leads to it. */
  ghost predicate CertifiedExecutable(
    b: Bundle, goal: Audit, a: Audit, trail: seq<ExecutableState>, path: Path, inherited: seq<Path>, depth: nat)
  {
    && Within(b, goal, a, trail)
    && ResolveExecutable(b, path).Success?
    && LeadsTo(b, trail, ResolveExecutable(b, path).value)
    && ExecutableState(ResolveExecutable(b, path).value, inherited, depth) in goal.rank
  }

  ghost predicate CertifiedFormat(b: Bundle, goal: Audit, a: Audit, trail: seq<ExecutableState>, s: ExecutableState) {
    Within(b, goal, a, trail) && trail != [] && trail[|trail| - 1] == s
  }

  ghost predicate CertifiedScript(
    b: Bundle, goal: Audit, a: Audit, trail: seq<ExecutableState>, s: ExecutableState, shebang: Shebang)
  {
    CertifiedFormat(b, goal, a, trail, s) && Inspect(b.fs, s.path) == Success(Script(shebang))
  }

  /** The certificate goes on to this state, which has room in the budget. */
  ghost predicate CertifiedNew(b: Bundle, goal: Audit, a: Audit, trail: seq<ExecutableState>, s: ExecutableState) {
    && LeadsTo(b, trail, s.path) && a.visited < MAX_STARTUP_NODES
    && CertifiedFormat(b, goal, BeginExecutable(a, s.path), trail + [s], s)
  }

  /** A certified state that is not verified yet is not active either, and fits the budget. */
  lemma CertifiedState(b: Bundle, goal: Audit, a: Audit, trail: seq<ExecutableState>, path: Path, s: ExecutableState)
    requires ResolveExecutable(b, path) == Success(s.path) && BudgetKept(a) && s !in a.rank
    ensures CertifiedExecutable(b, goal, a, trail, path, s.inherited, s.depth) ==>
              s.path !in a.activeExecutables && CertifiedNew(b, goal, a, trail, s)
  {
    if CertifiedExecutable(b, goal, a, trail, path, s.inherited, s.depth) {
      TrailAvoids(b, goal, a, trail, s);
      WithinBeginExecutable(b, goal, a, trail, s);
      WithinBudget(b, goal, BeginExecutable(a, s.path), trail + [s]);
    }
  }

  lemma CertifiedClose(b: Bundle, goal: Audit, a: Audit, trail: seq<ExecutableState>, s: ExecutableState)
    ensures Within(b, goal, a, trail + [s]) && LeadsTo(b, trail, s.path) ==>
              Within(b, goal, EndExecutable(a, s), trail)
  {
    if Within(b, goal, a, trail + [s]) && LeadsTo(b, trail, s.path) {
      WithinEndExecutable(b, goal, a, trail, s);
    }
  }

  lemma CertifiedParts(b: Bundle, goal: Audit, a: Audit, trail: seq<ExecutableState>, s: ExecutableState)
    ensures CertifiedFormat(b, goal, a, trail, s) ==>
              match Inspect(b.fs, s.path)
              case Failure(_) => false
              case Success(Elf(_)) => ElfEntryOk(b, s.path, s.inherited, goal.verifiedLibraries)
              case Success(Script(shebang)) =>
                s.depth < MAX_SCRIPT_DEPTH && CertifiedScript(b, goal, a, trail, s, shebang)
  {
    if CertifiedFormat(b, goal, a, trail, s) {
      assert ExecutableOk(b, goal.rank, s, goal.verifiedLibraries);
    }
  }

  lemma CertifiedSuccessors(
    b: Bundle, goal: Audit, a: Audit, trail: seq<ExecutableState>, s: ExecutableState, shebang: Shebang)
    requires Canonicalizes(b.fs)
    ensures CertifiedScript(b, goal, a, trail, s, shebang) ==>
              && ResolveLogical(b, shebang.interpreter).Success?
              && CertifiedExecutable(b, goal, a, trail, ResolveLogical(b, shebang.interpreter).value, s.inherited, s.depth + 1)
              && (AsksEnv(shebang) ==>
                    && EnvCommand(b, shebang).Some?
                    && CertifiedExecutable(b, goal, a, trail, b.managedTools[shebang.argument.value], [], 0))
  {
    if CertifiedScript(b, goal, a, trail, s, shebang) {
      assert ExecutableOk(b, goal.rank, s, goal.verifiedLibraries);
      var next := Successors(b, s, shebang).value;
      assert RanksBelow(goal.rank, next[0], goal.rank[s]);
      ResolvedIsStable(b, b.payloadRoot + Components(shebang.interpreter));
      if AsksEnv(shebang) {
        assert RanksBelow(goal.rank, next[1], goal.rank[s]);
      }
    }
  }

  lemma CertifiedEntry(b: Bundle, goal: Audit, a: Audit, trail: seq<ExecutableState>, s: LibraryState)
    requires BudgetKept(a)
    ensures Within(b, goal, a, trail) && Satisfied(b, s, goal.verifiedLibraries) ==>
              && DepsRun(GraphOf(b), RunOf(a), {}, s).Some?
              && Within(b, goal, WithRun(a, DepsRun(GraphOf(b), RunOf(a), {}, s).value), trail)
  {
    if Within(b, goal, a, trail) && Satisfied(b, s, goal.verifiedLibraries) {
      CertifiedLibraries(b, goal, a, trail, s);
      GraphIs(b, s);
    }
  }

  /** The finished audit: nothing is in progress and every tool target was accepted. */
  ghost predicate Accepts(b: Bundle, a: Audit, targets: seq<Path>) {
    && Canonicalizes(b.fs)
    && Sound(b, a)
    && a.activeExecutables == {}
    && AllAccepted(b, a.rank, targets)
  }

  ghost predicate AllAccepted(b: Bundle, rank: map<ExecutableState, nat>, targets: seq<Path>) {
    forall i | 0 <= i < |targets| :: Accepted(b, rank, targets[i])
  }

  ghost predicate Accepted(b: Bundle, rank: map<ExecutableState, nat>, target: Path) {
    && ResolveExecutable(b, target).Success?
    && ExecutableState(ResolveExecutable(b, target).value, [], 0) in rank
  }

  /** The finished audit of one ELF tool and its libraries. */
  function SingleAudit(path: Path, verified: set<LibraryState>): Audit {
    Audit({}, {}, map[ExecutableState(path, [], 0) := 0], verified, |verified| + 1)
  }

  lemma SingleIsAccepted(b: Bundle, path: Path, verified: set<LibraryState>)
    requires Canonicalizes(b.fs) && ResolveExecutable(b, path) == Success(path) && IsElf(b, path)
    requires ElfEntryOk(b, path, [], verified) && Settled(GraphOf(b), verified) && |verified| < MAX_STARTUP_NODES
    ensures Accepts(b, SingleAudit(path, verified), [path])
  {
    var a, s := SingleAudit(path, verified), ExecutableState(path, [], 0);
    assert a.rank.Keys == {s};
    assert ExecutableOk(b, a.rank, s, verified);
  }

  lemma AcceptOneMore(b: Bundle, before: Audit, after: Audit, targets: seq<Path>, i: nat)
    requires i < |targets| && Extends(before, after)
    requires AllAccepted(b, before.rank, targets[..i]) && Accepted(b, after.rank, targets[i])
    ensures AllAccepted(b, after.rank, targets[..i + 1])
  {
    forall k | 0 <= k < i
      ensures Accepted(b, after.rank, targets[k])
    {
      assert Accepted(b, before.rank, targets[..i][k]);
      assert ExecutableState(ResolveExecutable(b, targets[k]).value, [], 0) in before.rank;
    }
  }

  /** Some finished audit accepts all targets. */
  ghost predicate Acceptable(b: Bundle, targets: seq<Path>) {
    exists goal :: Accepts(b, goal, targets)
  }

  /** Some finished audit accepts all targets, and its libraries rely on each other only. */
  ghost predicate Certifiable(b: Bundle, targets: seq<Path>) {
    exists goal :: Certifies(b, goal, targets)
  }

  ghost predicate Certifies(b: Bundle, goal: Audit, targets: seq<Path>) {
    Accepts(b, goal, targets) && Closed(GraphOf(b), goal.verifiedLibraries)
  }

  /** No search directories are inherited, or no library leads back to itself. */
  ghost predicate OrderFree(b: Bundle) {
    RpathFree(b) || NoReturn(GraphOf(b))
  }

  lemma AcceptableIsCertifiable(b: Bundle, targets: seq<Path>)
    requires OrderFree(b)
    ensures Acceptable(b, targets) <==> Certifiable(b, targets)
  {
    if Acceptable(b, targets) {
      var goal :| Accepts(b, goal, targets);
      VerifiedIsClosed(b, goal.verifiedLibraries);
      assert Certifies(b, goal, targets);
    }
    if Certifiable(b, targets) {
      var goal :| Certifies(b, goal, targets);
      assert Accepts(b, goal, targets);
    }
  }

  lemma CertifiedTarget(b: Bundle, goal: Audit, a: Audit, targets: seq<Path>, i: nat)
    requires i < |targets|
    ensures Accepts(b, goal, targets) && Within(b, goal, a, []) ==> CertifiedExecutable(b, goal, a, [], targets[i], [], 0)
  {
    if Accepts(b, goal, targets) {
      assert Accepted(b, goal.rank, targets[i]);
    }
  }

  const UNTOUCHED := Audit({}, {}, map[], {}, 0)

  predicate IsElfTarget(b: Bundle, target: Path) {
    ResolveExecutable(b, target).Success? && IsElf(b, ResolveExecutable(b, target).value)
  }

  /** An ELF file passes an audit of its own. */
  ghost predicate TargetPasses(b: Bundle, path: Path) {
    EntryPasses(b, BeginExecutable(UNTOUCHED, path), path, [])
  }

  lemma FirstTarget(b: Bundle, a: Audit, target: Path, ok: bool)
    requires a.visited <= MAX_STARTUP_NODES
    requires ResolveExecutable(b, target).Success? ==>
               PassesIfElf(b, a, ExecutableState(ResolveExecutable(b, target).value, [], 0), ok)
    ensures a == UNTOUCHED && IsElfTarget(b, target) ==> (ok <==> TargetPasses(b, ResolveExecutable(b, target).value))
  {
  }

  /** Audits the launcher and then every configured tool from a clean state. */
  method VerifyStartupClosure(b: Bundle, launcher: Path, targets: seq<Path>)
    returns (r: Result<StartupVerifier, AuditError>)
    requires Canonicalizes(b.fs)
    ensures r.Success? ==>
              && fresh(r.value) && r.value.bundle == b
              && Accepts(b, r.value.View(), targets)
              && StandsAlone(b, launcher)
    ensures Certifiable(b, targets) && StandsAlone(b, launcher) ==> r.Success?
    ensures OrderFree(b) ==> (r.Success? <==> StandsAlone(b, launcher) && Acceptable(b, targets))
    ensures |targets| == 1 && IsElfTarget(b, targets[0]) ==>
              (r.Success? <==> StandsAlone(b, launcher) && TargetPasses(b, ResolveExecutable(b, targets[0]).value))
  {
    if ParseElf(b, launcher).None? {
      return Failure(UnparsableElf);
    }
    if !StandsAlone(b, launcher) {
      return Failure(LauncherNotStatic);
    }
    ghost var goal := UNTOUCHED;
    if Certifiable(b, targets) {
      goal :| Certifies(b, goal, targets);
    }
    r := AuditTargets(b, targets, goal);
    if OrderFree(b) {
      AcceptableIsCertifiable(b, targets);
    }
  }

  /** Audits every configured tool in order. */
  method AuditTargets(b: Bundle, targets: seq<Path>, ghost goal: Audit) returns (r: Result<StartupVerifier, AuditError>)
    requires Canonicalizes(b.fs)
    ensures r.Success? ==> fresh(r.value) && r.value.bundle == b && Accepts(b, r.value.View(), targets)
    ensures Certifies(b, goal, targets) ==> r.Success?
    ensures |targets| == 1 && IsElfTarget(b, targets[0]) ==>
              (r.Success? <==> TargetPasses(b, ResolveExecutable(b, targets[0]).value))
  {
    var verifier := new StartupVerifier(b);
    for i := 0 to |targets|
      invariant fresh(verifier) && verifier.bundle == b && verifier.Valid() && verifier.activeExecutables == {}
      invariant AllAccepted(b, verifier.View().rank, targets[..i])
      invariant Certifies(b, goal, targets) ==> Within(b, goal, verifier.View(), [])
      invariant i == 0 ==> verifier.View() == UNTOUCHED
      invariant i > 0 && IsElfTarget(b, targets[0]) ==> TargetPasses(b, ResolveExecutable(b, targets[0]).value)
    {
      ghost var before := verifier.View();
      CertifiedTarget(b, goal, verifier.View(), targets, i);
      var outcome := verifier.AuditExecutable(targets[i], [], 0, goal, []);
      FirstTarget(b, before, targets[i], outcome.Success?);
      if outcome.Failure? {
        return Failure(outcome.error);
      }
      AcceptOneMore(b, before, verifier.View(), targets, i);
    }
    assert targets[..|targets|] == targets;
    return Success(verifier);
  }
}
