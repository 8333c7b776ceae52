/**
  Walks from script to interpreter or `env` command, and what a finished audit says about
  an audit of the same bundle that is still under way.
 */
module StartupWalks {
  import opened Wrappers
  import opened Text
  import opened Bundle
  import opened LibraryRuns
  import opened StartupSearch
  import opened Startup

  // ----- Walks -----

  /** Starting `from` runs `to`: its interpreter, or the command it asks `env` for. */
  ghost predicate HandsTo(b: Bundle, from: Path, to: Path) {
    match Inspect(b.fs, from)
    case Success(Script(shebang)) =>
      || ResolveLogical(b, shebang.interpreter) == Success(to)
      || (AsksEnv(shebang) && EnvCommand(b, shebang) == Some(to))
    case _ => false
  }

  ghost predicate Walk(b: Bundle, paths: seq<Path>) {
    forall i | 0 <= i < |paths| - 1 :: HandsTo(b, paths[i], paths[i + 1])
  }

  /** One step of a walk lifts to verified states of strictly smaller rank. */
  lemma LiftStep(b: Bundle, a: Audit, s: ExecutableState, to: Path) returns (t: ExecutableState)
    requires Sound(b, a) && s in a.rank && HandsTo(b, s.path, to)
    ensures t in a.rank && t.path == to && a.rank[t] < a.rank[s]
  {
    var shebang := Inspect(b.fs, s.path).value.shebang;
    if ResolveLogical(b, shebang.interpreter) == Success(to) {
      t := VerifiedScript(b, a, s, shebang);
    } else {
      t := VerifiedCommand(b, a, s, shebang);
    }
  }

  lemma {:induction false} LiftWalk(b: Bundle, a: Audit, s: ExecutableState, paths: seq<Path>) returns (t: ExecutableState)
    requires Sound(b, a) && s in a.rank
    requires paths != [] && paths[0] == s.path && Walk(b, paths)
    ensures t in a.rank && t.path == paths[|paths| - 1]
    ensures a.rank[t] + |paths| - 1 <= a.rank[s]
    decreases |paths|
  {
    if |paths| == 1 {
      t := s;
    } else {
      assert HandsTo(b, paths[0], paths[0 + 1]);
      var next := LiftStep(b, a, s, paths[1]);
      assert Walk(b, paths[1..]) by {
        forall i | 0 <= i < |paths[1..]| - 1
          ensures HandsTo(b, paths[1..][i], paths[1..][i + 1])
        {
          assert HandsTo(b, paths[i + 1], paths[i + 1 + 1]);
        }
      }
      t := LiftWalk(b, a, next, paths[1..]);
    }
  }

  /** A closed walk would lift to ever smaller ranks. */
  lemma {:induction false} NoClosedWalk(b: Bundle, a: Audit, s: ExecutableState, paths: seq<Path>)
    requires Sound(b, a) && s in a.rank
    requires |paths| >= 2 && paths[0] == s.path && Walk(b, paths)
    ensures paths[|paths| - 1] != s.path
    decreases a.rank[s]
  {
    if paths[|paths| - 1] == s.path {
      var t := LiftWalk(b, a, s, paths);
      NoClosedWalk(b, a, t, paths);
    }
  }

  lemma WalkSlice(b: Bundle, paths: seq<Path>, from: nat, to: nat)
    requires from <= to <= |paths| && Walk(b, paths)
    ensures Walk(b, paths[from..to])
  {
    forall i | 0 <= i < |paths[from..to]| - 1
      ensures HandsTo(b, paths[from..to][i], paths[from..to][i + 1])
    {
      assert HandsTo(b, paths[from + i], paths[from + i + 1]);
    }
  }

  // ----- Certificates -----

  /** A finished sound audit whose libraries rely on each other only. */
  ghost predicate Certificate(b: Bundle, goal: Audit) {
    Sound(b, goal) && goal.activeExecutables == {} && Closed(GraphOf(b), goal.verifiedLibraries)
  }

  function TrailPaths(trail: seq<ExecutableState>): (paths: seq<Path>)
    ensures |paths| == |trail| && forall i | 0 <= i < |trail| :: paths[i] == trail[i].path
  {
    seq(|trail|, i requires 0 <= i < |trail| => trail[i].path)
  }

  /** The active executables are those of a walk through certified states yet to be verified. */
  ghost predicate Trail(b: Bundle, goal: Audit, a: Audit, trail: seq<ExecutableState>) {
    && Walk(b, TrailPaths(trail))
    && (forall p :: p in a.activeExecutables <==> p in TrailPaths(trail))
    && (forall i | 0 <= i < |trail| :: trail[i] in goal.rank && trail[i] !in a.rank)
  }

  /** What is verified or active so far is part of the certificate. */
  ghost predicate Within(b: Bundle, goal: Audit, a: Audit, trail: seq<ExecutableState>) {
    && Certificate(b, goal) && Trail(b, goal, a, trail) && a.activeLibraries == {}
    && a.rank.Keys <= goal.rank.Keys && a.verifiedLibraries <= goal.verifiedLibraries
  }

  /** The walk goes on to `path`, or starts there. */
  ghost predicate LeadsTo(b: Bundle, trail: seq<ExecutableState>, path: Path) {
    trail == [] || HandsTo(b, trail[|trail| - 1].path, path)
  }

  lemma WalkExtends(b: Bundle, trail: seq<ExecutableState>, s: ExecutableState)
    requires Walk(b, TrailPaths(trail)) && LeadsTo(b, trail, s.path)
    ensures Walk(b, TrailPaths(trail + [s])) && TrailPaths(trail + [s]) == TrailPaths(trail) + [s.path]
  {
    var paths, longer := TrailPaths(trail), TrailPaths(trail + [s]);
    assert longer == paths + [s.path];
    forall i | 0 <= i < |longer| - 1
      ensures HandsTo(b, longer[i], longer[i + 1])
    {
      assert i < |paths| - 1 ==> HandsTo(b, paths[i], paths[i + 1]);
    }
  }

  /** A certified path is never met again while it is active. */
  lemma TrailAvoids(b: Bundle, goal: Audit, a: Audit, trail: seq<ExecutableState>, s: ExecutableState)
    requires Certificate(b, goal) && Trail(b, goal, a, trail) && LeadsTo(b, trail, s.path)
    ensures s.path !in a.activeExecutables
  {
    WalkExtends(b, trail, s);
    var paths, longer := TrailPaths(trail), TrailPaths(trail + [s]);
    forall i | 0 <= i < |trail|
      ensures paths[i] != s.path
    {
      WalkSlice(b, longer, i, |longer|);
      NoClosedWalk(b, goal, trail[i], longer[i..]);
    }
  }

  lemma WithinBeginExecutable(b: Bundle, goal: Audit, a: Audit, trail: seq<ExecutableState>, s: ExecutableState)
    requires Within(b, goal, a, trail) && LeadsTo(b, trail, s.path) && s in goal.rank && s !in a.rank
    ensures Within(b, goal, BeginExecutable(a, s.path), trail + [s])
  {
    WalkExtends(b, trail, s);
  }

  lemma WithinEndExecutable(b: Bundle, goal: Audit, a: Audit, trail: seq<ExecutableState>, s: ExecutableState)
    requires Within(b, goal, a, trail + [s]) && LeadsTo(b, trail, s.path)
    ensures Within(b, goal, EndExecutable(a, s), trail)
  {
    var longer, paths := TrailPaths(trail + [s]), TrailPaths(trail);
    assert longer == paths + [s.path];
    WalkSlice(b, longer, 0, |trail|);
    assert longer[0..|trail|] == paths;
    forall i | 0 <= i < |trail|
      ensures trail[i] in goal.rank && trail[i] !in EndExecutable(a, s).rank && trail[i].path != s.path
    {
      assert (trail + [s])[i] == trail[i];
      WalkSlice(b, longer, i, |longer|);
      NoClosedWalk(b, goal, trail[i], longer[i..]);
    }
    assert (trail + [s])[|trail|] == s;
  }

  // ----- A certificate fits the budget, and so does all it covers -----

  /** A set has at least as many elements as any image of it. */
  lemma {:induction false} ImageFewer<S, T>(all: set<S>, image: set<T>, f: S -> T)
    requires image == set s | s in all :: f(s)
    ensures |image| <= |all|
  {
    if all != {} {
      var one :| one in all;
      var rest := all - {one};
      var smaller := set s | s in rest :: f(s);
      ImageFewer(rest, smaller, f);
      assert image == smaller + {f(one)};
    }
  }

  lemma DisjointSize<T>(x: set<T>, y: set<T>, all: set<T>)
    requires x <= all && y <= all && x !! y
    ensures |x| + |y| <= |all|
  {
    assert |x + y| == |x| + |y|;
    assert all == (x + y) + (all - (x + y));
  }

  lemma ExecutablesFit(b: Bundle, goal: Audit, a: Audit, trail: seq<ExecutableState>)
    requires Within(b, goal, a, trail)
    ensures |a.activeExecutables| + |a.rank| <= |goal.rank|
  {
    var states := set s | s in trail;
    forall p | p in a.activeExecutables
      ensures exists s :: s in states && s.path == p
    {
      var i :| 0 <= i < |trail| && TrailPaths(trail)[i] == p;
      assert trail[i] in states;
    }
    assert a.activeExecutables == set s | s in states :: s.path by {
      forall s | s in states
        ensures s.path in a.activeExecutables
      {
        var i :| 0 <= i < |trail| && trail[i] == s;
        assert TrailPaths(trail)[i] == s.path;
      }
    }
    ImageFewer(states, a.activeExecutables, (s: ExecutableState) => s.path);
    DisjointSize(states, a.rank.Keys, goal.rank.Keys);
  }

  /** Whatever stays within a certificate stays within the budget, with room for all its libraries. */
  lemma WithinBudget(b: Bundle, goal: Audit, a: Audit, trail: seq<ExecutableState>)
    requires Within(b, goal, a, trail)
    requires a.visited == |a.activeExecutables| + |a.activeLibraries| + |a.rank| + |a.verifiedLibraries|
    ensures a.visited + |goal.verifiedLibraries| - |a.verifiedLibraries| <= MAX_STARTUP_NODES
    ensures a.visited <= MAX_STARTUP_NODES
  {
    ExecutablesFit(b, goal, a, trail);
    DisjointSize(a.verifiedLibraries, {}, goal.verifiedLibraries);
    assert BudgetKept(goal);
  }

  /** A certified ELF entry passes, and its libraries stay within the certificate. */
  lemma CertifiedLibraries(b: Bundle, goal: Audit, a: Audit, trail: seq<ExecutableState>, s: LibraryState)
    requires Within(b, goal, a, trail) && BudgetKept(a) && Satisfied(b, s, goal.verifiedLibraries)
    ensures var deps := Deps(b, s).value;
            var run := VisitAll(GraphOf(b), RunOf(a), {}, deps, |deps|);
            run.Some? && Within(b, goal, WithRun(a, run.value), trail)
  {
    WithinBudget(b, goal, a, trail);
    var deps := Deps(b, s).value;
    assert WithinClosed(goal.verifiedLibraries, RunOf(a), {}, {});
    VisitAllSucceeds(GraphOf(b), goal.verifiedLibraries, RunOf(a), {}, {}, deps, |deps|);
  }
}
