/**
  The startup closure: what it means for an ELF entry or a script to be startable from
  payload files alone, and what an audit in progress guarantees between executables.

  Everything here is about values. `StartupVerifier` holds the mutable audit and proves
  that each of its steps keeps the invariant `Sound`.
 */
module Startup {
  import opened Wrappers
  import opened Text
  import opened Bundle
  import opened LibraryRuns
  import opened StartupSearch

  const MAX_STARTUP_NODES := 4096
  const MAX_SCRIPT_DEPTH := 4
  const ENV_INTERPRETER: Path := ["usr", "bin", "env"]

  datatype ExecutableState = ExecutableState(path: Path, inherited: seq<Path>, depth: nat)

  // ----- ELF entries and scripts -----

  /** A loader must itself start without a loader or libraries. */
  predicate StandsAlone(b: Bundle, loader: Path) {
    match ParseElf(b, loader)
    case None => false
    case Some(info) => info.interpreter == None && info.needed == []
  }

  /** All dependencies of the state are found, pass the checks and are in the set. */
  ghost predicate Satisfied(b: Bundle, s: LibraryState, verified: set<LibraryState>) {
    Deps(b, s).Some? && forall t | t in Deps(b, s).value :: t in verified
  }

  /** What a dynamic file needs besides its libraries. */
  predicate LoaderOk(b: Bundle, text: string) {
    && ResolveLogical(b, text).Success?
    && StandsAlone(b, ResolveLogical(b, text).value)
    && b.libraryDirs != []
  }

  ghost predicate ElfEntryOk(b: Bundle, path: Path, inherited: seq<Path>, verified: set<LibraryState>) {
    match ParseElf(b, path)
    case None => false
    case Some(info) =>
      match info.interpreter
      case None => info.needed == []
      case Some(text) => LoaderOk(b, text) && Satisfied(b, LibraryState(path, inherited), verified)
  }

  predicate AsksEnv(shebang: Shebang) {
    Components(shebang.interpreter) == ENV_INTERPRETER
  }

  predicate PlainCommand(argument: string) {
    && argument != "" && argument[0] != '-' && '/' !in argument
    && forall c | c in argument :: c !in {' ', '\t', '\n', '\r', '\U{0c}'}
  }

  /** The executable that `env` will find for a script, when the script names one. */
  function EnvCommand(b: Bundle, shebang: Shebang): Option<Path> {
    var command :- shebang.argument;
    if PlainCommand(command) && command in b.managedTools then
      match ResolveExecutable(b, b.managedTools[command])
      case Success(target) => Some(target)
      case Failure(_) => None
    else None
  }

  /** States a verified script hands control to: its interpreter, then any `env` command. */
  function Successors(b: Bundle, s: ExecutableState, shebang: Shebang): Option<seq<ExecutableState>> {
    match ResolveLogical(b, shebang.interpreter)
    case Failure(_) => None
    case Success(interpreter) =>
      var next := [ExecutableState(interpreter, s.inherited, s.depth + 1)];
      if AsksEnv(shebang) then
        var command :- EnvCommand(b, shebang);
        Some(next + [ExecutableState(command, [], 0)])
      else
        Some(next)
  }

  /**
    `s` is startable, relying only on states of smaller rank and on verified libraries.
    Executables are started by the launcher, so they inherit no search directories.
   */
  ghost predicate ExecutableOk(b: Bundle, rank: map<ExecutableState, nat>, s: ExecutableState, verified: set<LibraryState>)
    requires s in rank
  {
    && ResolveExecutable(b, s.path) == Success(s.path)
    && s.inherited == []
    && match Inspect(b.fs, s.path)
       case Failure(_) => false
       case Success(Elf(_)) => ElfEntryOk(b, s.path, s.inherited, verified)
       case Success(Script(shebang)) =>
         && s.depth < MAX_SCRIPT_DEPTH
         && Successors(b, s, shebang).Some?
         && forall i | 0 <= i < |Successors(b, s, shebang).value| ::
              RanksBelow(rank, Successors(b, s, shebang).value[i], rank[s])
  }

  ghost predicate RanksBelow(rank: map<ExecutableState, nat>, s: ExecutableState, bound: nat) {
    s in rank && rank[s] < bound
  }

  ghost predicate AllRanked(rank: map<ExecutableState, nat>, states: seq<ExecutableState>) {
    forall i | 0 <= i < |states| :: states[i] in rank
  }

  lemma FirstSuccessor(b: Bundle, s: ExecutableState, shebang: Shebang) returns (interpreter: Path)
    requires Successors(b, s, shebang).Some?
    ensures ResolveLogical(b, shebang.interpreter) == Success(interpreter)
    ensures |Successors(b, s, shebang).value| > 0
    ensures Successors(b, s, shebang).value[0] == ExecutableState(interpreter, s.inherited, s.depth + 1)
  {
    interpreter := ResolveLogical(b, shebang.interpreter).value;
  }

  lemma SuccessorsRanked(b: Bundle, rank: map<ExecutableState, nat>, s: ExecutableState, shebang: Shebang)
    requires ResolveLogical(b, shebang.interpreter).Success?
    requires ExecutableState(ResolveLogical(b, shebang.interpreter).value, s.inherited, s.depth + 1) in rank
    requires AsksEnv(shebang) ==>
               && EnvCommand(b, shebang).Some?
               && ExecutableState(EnvCommand(b, shebang).value, [], 0) in rank
    ensures Successors(b, s, shebang).Some? && AllRanked(rank, Successors(b, s, shebang).value)
  {
  }

  /** An ELF entry with verified dependencies can be ranked last. */
  lemma RankElf(b: Bundle, rank: map<ExecutableState, nat>, s: ExecutableState, linkage: Option<string>, verified: set<LibraryState>)
    requires ResolveExecutable(b, s.path) == Success(s.path) && s.inherited == []
    requires Inspect(b.fs, s.path) == Success(Elf(linkage))
    requires ElfEntryOk(b, s.path, s.inherited, verified)
    ensures ExecutableOk(b, rank[s := |rank|], s, verified)
  {
  }

  /** A script whose successors are ranked can be ranked above them. */
  lemma RankScript(b: Bundle, rank: map<ExecutableState, nat>, s: ExecutableState, shebang: Shebang, verified: set<LibraryState>)
    requires s !in rank && RanksBounded(rank)
    requires ResolveExecutable(b, s.path) == Success(s.path) && s.inherited == []
    requires Inspect(b.fs, s.path) == Success(Script(shebang))
    requires s.depth < MAX_SCRIPT_DEPTH
    requires Successors(b, s, shebang).Some? && AllRanked(rank, Successors(b, s, shebang).value)
    ensures ExecutableOk(b, rank[s := |rank|], s, verified)
  {
    var next := Successors(b, s, shebang).value;
    forall i | 0 <= i < |next|
      ensures RanksBelow(rank[s := |rank|], next[i], |rank|)
    {
      assert next[i] in rank;
    }
  }

  // ----- An audit in progress -----

  /** The verifier's five mutable fields; `rank` is the order in which executables were verified. */
  datatype Audit = Audit(
    activeExecutables: set<Path>,
    activeLibraries: set<Path>,
    rank: map<ExecutableState, nat>,
    verifiedLibraries: set<LibraryState>,
    visited: nat)

  /** Every visited state is accounted for exactly once. */
  ghost predicate BudgetKept(a: Audit) {
    && a.visited <= MAX_STARTUP_NODES
    && a.visited == |a.activeExecutables| + |a.activeLibraries| + |a.rank| + |a.verifiedLibraries|
  }

  ghost predicate RanksBounded(rank: map<ExecutableState, nat>) {
    forall s | s in rank :: rank[s] < |rank|
  }

  ghost predicate Sound(b: Bundle, a: Audit) {
    && BudgetKept(a)
    && RanksBounded(a.rank)
    && a.activeLibraries == {}
    && Settled(GraphOf(b), a.verifiedLibraries)
    && (forall s {:trigger ExecutableOk(b, a.rank, s, a.verifiedLibraries)} | s in a.rank ::
          ExecutableOk(b, a.rank, s, a.verifiedLibraries))
  }

  /** What a call that succeeds may have done: the active sets are as they were, and nothing
      that was active when it began has been verified meanwhile. */
  ghost predicate Extends(before: Audit, after: Audit) {
    && after.activeExecutables == before.activeExecutables
    && after.activeLibraries == before.activeLibraries
    && before.verifiedLibraries <= after.verifiedLibraries
    && before.visited <= after.visited
    && (forall s | s in before.rank :: s in after.rank && after.rank[s] == before.rank[s])
    && (forall s | s in after.rank && s !in before.rank :: s.path !in before.activeExecutables)
  }

  lemma ExtendsTransitive(x: Audit, y: Audit, z: Audit)
    requires Extends(x, y) && Extends(y, z)
    ensures Extends(x, z)
  {
  }

  lemma ExecutableMonotone(
    b: Bundle, rank: map<ExecutableState, nat>, more: map<ExecutableState, nat>,
    s: ExecutableState, small: set<LibraryState>, large: set<LibraryState>)
    requires s in rank && s in more
    requires small <= large
    requires forall t | t in rank :: t in more && more[t] == rank[t]
    requires ExecutableOk(b, rank, s, small)
    ensures ExecutableOk(b, more, s, large)
  {
    match Inspect(b.fs, s.path) {
      case Success(Elf(_)) =>
      case Success(Script(shebang)) =>
        forall i | 0 <= i < |Successors(b, s, shebang).value|
          ensures RanksBelow(more, Successors(b, s, shebang).value[i], more[s])
        {
          assert RanksBelow(rank, Successors(b, s, shebang).value[i], rank[s]);
        }
    }
  }

  // ----- The bookkeeping moves of executables -----

  function BeginExecutable(a: Audit, path: Path): Audit {
    a.(activeExecutables := a.activeExecutables + {path}, visited := a.visited + 1)
  }

  function EndExecutable(a: Audit, s: ExecutableState): Audit {
    a.(activeExecutables := a.activeExecutables - {s.path}, rank := a.rank[s := |a.rank|])
  }

  lemma BeginExecutableSound(b: Bundle, a: Audit, path: Path)
    requires Sound(b, a) && path !in a.activeExecutables && a.visited < MAX_STARTUP_NODES
    ensures Sound(b, BeginExecutable(a, path))
  {
    var after := BeginExecutable(a, path);
    forall s | s in after.rank
      ensures ExecutableOk(b, after.rank, s, after.verifiedLibraries)
    {
      assert ExecutableOk(b, a.rank, s, a.verifiedLibraries);
    }
  }

  lemma EndExecutableExtends(before: Audit, a: Audit, s: ExecutableState)
    requires s.path !in before.activeExecutables && s !in before.rank
    requires Extends(BeginExecutable(before, s.path), a)
    requires BudgetKept(a)
    ensures s !in a.rank
    ensures Extends(before, EndExecutable(a, s)) && BudgetKept(EndExecutable(a, s))
  {
    var after := EndExecutable(a, s);
    assert s !in a.rank;
    assert s.path in a.activeExecutables;
    assert after.activeExecutables == before.activeExecutables;
    assert after.rank.Keys == a.rank.Keys + {s};
    assert |after.activeExecutables| == |a.activeExecutables| - 1;
  }

  lemma NewRankKeepsRest(b: Bundle, rank: map<ExecutableState, nat>, s: ExecutableState, t: ExecutableState, verified: set<LibraryState>)
    requires s !in rank && t in rank && ExecutableOk(b, rank, t, verified)
    ensures ExecutableOk(b, rank[s := |rank|], t, verified)
  {
    var more := rank[s := |rank|];
    ExecutableMonotone(b, rank, more, t, verified, verified);
  }

  lemma NewRankBounded(rank: map<ExecutableState, nat>, s: ExecutableState)
    requires s !in rank && RanksBounded(rank)
    ensures RanksBounded(rank[s := |rank|])
  {
    assert rank[s := |rank|].Keys == rank.Keys + {s};
  }

  /** Closing an executable audit: the memo entry is new, and the budget still balances. */
  lemma EndExecutableSound(b: Bundle, before: Audit, a: Audit, s: ExecutableState)
    requires s.path !in before.activeExecutables && s !in before.rank
    requires Extends(BeginExecutable(before, s.path), a) && Sound(b, a)
    requires ExecutableOk(b, a.rank[s := |a.rank|], s, a.verifiedLibraries)
    ensures s !in a.rank
    ensures Sound(b, EndExecutable(a, s)) && Extends(before, EndExecutable(a, s))
  {
    var after := EndExecutable(a, s);
    EndExecutableExtends(before, a, s);
    NewRankBounded(a.rank, s);
    assert after.rank == a.rank[s := |a.rank|] && after.verifiedLibraries == a.verifiedLibraries;
    forall t | t in a.rank
      ensures ExecutableOk(b, after.rank, t, a.verifiedLibraries)
    {
      NewRankKeepsRest(b, a.rank, s, t, a.verifiedLibraries);
    }
  }

  // ----- Libraries of an ELF entry -----

  function RunOf(a: Audit): Visited
    requires a.visited <= MAX_STARTUP_NODES
  {
    Visited(a.verifiedLibraries, MAX_STARTUP_NODES - a.visited)
  }

  /** The audit after its libraries have run to `v`. */
  function WithRun(a: Audit, v: Visited): Audit
    requires v.left <= MAX_STARTUP_NODES
  {
    a.(verifiedLibraries := v.verified, visited := MAX_STARTUP_NODES - v.left)
  }

  lemma DepsAreEntries(b: Bundle, path: Path)
    requires Dynamic(b, path) && Deps(b, LibraryState(path, [])).Some?
    ensures forall t | t in Deps(b, LibraryState(path, [])).value :: IsEntry(GraphOf(b), t)
  {
    forall t | t in Deps(b, LibraryState(path, [])).value
      ensures IsEntry(GraphOf(b), t)
    {
      assert LoadedBy(b, path, t);
      GraphIs(b, t);
    }
  }

  /** Auditing the libraries of an ELF entry keeps soundness and verifies all of them. */
  lemma EntrySound(b: Bundle, a: Audit, path: Path)
    requires Sound(b, a) && Dynamic(b, path) && Deps(b, LibraryState(path, [])).Some?
    requires var deps := Deps(b, LibraryState(path, [])).value; VisitAll(GraphOf(b), RunOf(a), {}, deps, |deps|).Some?
    ensures var deps := Deps(b, LibraryState(path, [])).value;
            var after := WithRun(a, VisitAll(GraphOf(b), RunOf(a), {}, deps, |deps|).value);
            Sound(b, after) && Extends(a, after) && Satisfied(b, LibraryState(path, []), after.verifiedLibraries)
  {
    var deps := Deps(b, LibraryState(path, [])).value;
    var after := WithRun(a, VisitAll(GraphOf(b), RunOf(a), {}, deps, |deps|).value);
    DepsAreEntries(b, path);
    EntrySettles(GraphOf(b), RunOf(a), deps);
    forall s | s in after.rank
      ensures ExecutableOk(b, after.rank, s, after.verifiedLibraries)
    {
      assert ExecutableOk(b, a.rank, s, a.verifiedLibraries);
      ExecutableMonotone(b, a.rank, after.rank, s, a.verifiedLibraries, after.verifiedLibraries);
    }
  }

  // ----- Reading a verified state -----

  /** A verified script is shallow enough, and its interpreter was verified before it. */
  lemma VerifiedScript(b: Bundle, a: Audit, s: ExecutableState, shebang: Shebang) returns (next: ExecutableState)
    requires Sound(b, a) && s in a.rank && Inspect(b.fs, s.path) == Success(Script(shebang))
    ensures s.depth < MAX_SCRIPT_DEPTH
    ensures ResolveLogical(b, shebang.interpreter) == Success(next.path)
    ensures next.inherited == s.inherited && next.depth == s.depth + 1
    ensures next in a.rank && a.rank[next] < a.rank[s]
  {
    assert ExecutableOk(b, a.rank, s, a.verifiedLibraries);
    var interpreter := FirstSuccessor(b, s, shebang);
    next := ExecutableState(interpreter, s.inherited, s.depth + 1);
    assert RanksBelow(a.rank, Successors(b, s, shebang).value[0], a.rank[s]);
  }

  /** What a verified script asks `env` for was verified before it, as a fresh start. */
  lemma VerifiedCommand(b: Bundle, a: Audit, s: ExecutableState, shebang: Shebang) returns (next: ExecutableState)
    requires Sound(b, a) && s in a.rank && Inspect(b.fs, s.path) == Success(Script(shebang))
    requires AsksEnv(shebang)
    ensures EnvCommand(b, shebang) == Some(next.path) && next.inherited == [] && next.depth == 0
    ensures next in a.rank && a.rank[next] < a.rank[s]
  {
    assert ExecutableOk(b, a.rank, s, a.verifiedLibraries);
    next := Successors(b, s, shebang).value[1];
    assert RanksBelow(a.rank, next, a.rank[s]);
  }

  lemma VerifiedFormat(b: Bundle, a: Audit, s: ExecutableState)
    requires Sound(b, a) && s in a.rank
    ensures ResolveExecutable(b, s.path) == Success(s.path)
    ensures s.inherited == []
    ensures Inspect(b.fs, s.path).Success?
    ensures Inspect(b.fs, s.path).value.Elf? ==> ElfEntryOk(b, s.path, s.inherited, a.verifiedLibraries)
  {
    assert ExecutableOk(b, a.rank, s, a.verifiedLibraries);
  }
}
