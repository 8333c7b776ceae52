/**
  The audit of libraries as a function on an abstract graph: which states become verified,
  in which order, and how much of the state budget is left.

  A state is a path with the directories it inherits; a state without dependency list
  cannot be verified. States are verified by state, but a state whose path is already being
  audited is passed over by path.
 */
module LibraryRuns {
  import opened Wrappers
  import opened Text

  /** A library with the search directories it inherits from what loads it. */
  datatype LibraryState = LibraryState(path: Path, inherited: seq<Path>)

  /** The dependencies of each state in order, and the states that executables load. */
  datatype Graph = Graph(deps: LibraryState -> Option<seq<LibraryState>>, entry: LibraryState -> bool)

  function DepsOf(g: Graph, s: LibraryState): Option<seq<LibraryState>> {
    g.deps(s)
  }

  predicate IsEntry(g: Graph, s: LibraryState) {
    g.entry(s)
  }

  // ----- The run -----

  /** Verified states, and how many more states may be visited. */
  datatype Visited = Visited(verified: set<LibraryState>, left: nat)

  /** Audits one state while the paths in `active` are being audited. */
  function Visit(g: Graph, from: Visited, active: set<Path>, s: LibraryState): (r: Option<Visited>)
    ensures r.Some? ==> r.value.left <= from.left
    decreases from.left, 0
  {
    if s in from.verified || s.path in active then
      Some(from)
    else if from.left == 0 || DepsOf(g, s).None? then
      None
    else
      var deps := DepsOf(g, s).value;
      var after :- VisitAll(g, from.(left := from.left - 1), active + {s.path}, deps, |deps|);
      Some(after.(verified := after.verified + {s}))
  }

  /** Audits the first `n` of a list of states, in order. */
  function VisitAll(g: Graph, from: Visited, active: set<Path>, deps: seq<LibraryState>, n: nat): (r: Option<Visited>)
    requires n <= |deps|
    ensures r.Some? ==> r.value.left <= from.left
    decreases from.left, n + 1
  {
    if n == 0 then
      Some(from)
    else
      var before :- VisitAll(g, from, active, deps, n - 1);
      Visit(g, before, active, deps[n - 1])
  }

  /** Audits all dependencies of a state. */
  function DepsRun(g: Graph, from: Visited, active: set<Path>, s: LibraryState): Option<Visited> {
    var deps :- DepsOf(g, s);
    VisitAll(g, from, active, deps, |deps|)
  }

  /** One state in terms of its dependencies. */
  lemma VisitUnfolds(g: Graph, from: Visited, active: set<Path>, s: LibraryState)
    requires s !in from.verified && s.path !in active
    ensures Visit(g, from, active, s) ==
            if from.left == 0 then
              None
            else
              var run := DepsRun(g, from.(left := from.left - 1), active + {s.path}, s);
              if run.None? then None else Some(run.value.(verified := run.value.verified + {s}))
  {
  }

  /** What a run adds: states whose paths were not active, each paid for once. */
  ghost predicate Grows(from: Visited, active: set<Path>, to: Visited) {
    && from.verified <= to.verified
    && to.left + |to.verified| == from.left + |from.verified|
    && (forall t | t in to.verified && t !in from.verified :: t.path !in active)
  }

  lemma GrowsTransitive(x: Visited, y: Visited, z: Visited, active: set<Path>)
    requires Grows(x, active, y) && Grows(y, active, z)
    ensures Grows(x, active, z)
  {
  }

  /** Either verified, or being audited. */
  predicate Reached(v: Visited, active: set<Path>, s: LibraryState) {
    s in v.verified || s.path in active
  }

  lemma {:induction false} VisitGrows(g: Graph, from: Visited, active: set<Path>, s: LibraryState)
    requires Visit(g, from, active, s).Some?
    ensures Grows(from, active, Visit(g, from, active, s).value)
    ensures Reached(Visit(g, from, active, s).value, active, s)
    decreases from.left, 0
  {
    if !(s in from.verified || s.path in active) {
      var deps, inner := DepsOf(g, s).value, from.(left := from.left - 1);
      VisitAllGrows(g, inner, active + {s.path}, deps, |deps|);
      assert s !in VisitAll(g, inner, active + {s.path}, deps, |deps|).value.verified;
    }
  }

  lemma {:induction false} VisitAllGrows(g: Graph, from: Visited, active: set<Path>, deps: seq<LibraryState>, n: nat)
    requires n <= |deps| && VisitAll(g, from, active, deps, n).Some?
    ensures Grows(from, active, VisitAll(g, from, active, deps, n).value)
    ensures forall i | 0 <= i < n :: Reached(VisitAll(g, from, active, deps, n).value, active, deps[i])
    decreases from.left, n + 1
  {
    if n > 0 {
      VisitAllGrows(g, from, active, deps, n - 1);
      var before := VisitAll(g, from, active, deps, n - 1).value;
      VisitGrows(g, before, active, deps[n - 1]);
      GrowsTransitive(from, before, Visit(g, before, active, deps[n - 1]).value, active);
    }
  }

  // ----- What a verified state relies on -----

  ghost predicate Edge(g: Graph, s: LibraryState, t: LibraryState) {
    DepsOf(g, s).Some? && t in DepsOf(g, s).value
  }

  /** A chain of dependencies that begins where an executable begins. */
  ghost predicate LoadTrail(g: Graph, trail: seq<LibraryState>) {
    && (trail != [] ==> IsEntry(g, trail[0]))
    && (forall i | 0 <= i < |trail| - 1 :: Edge(g, trail[i], trail[i + 1]))
  }

  ghost predicate OnTrail(trail: seq<LibraryState>, path: Path) {
    exists i :: 0 <= i < |trail| && trail[i].path == path
  }

  ghost predicate EndsIn(trail: seq<LibraryState>, s: LibraryState) {
    trail != [] && trail[|trail| - 1] == s
  }

  /** Some state of `path` leads to `s` on a chain from an executable. */
  ghost predicate LeadsBack(g: Graph, path: Path, s: LibraryState) {
    exists trail :: LoadTrail(g, trail) && EndsIn(trail, s) && OnTrail(trail, path)
  }

  ghost predicate ContinuesTo(g: Graph, trail: seq<LibraryState>, s: LibraryState) {
    if trail == [] then IsEntry(g, s) else Edge(g, trail[|trail| - 1], s)
  }

  lemma TrailGrows(g: Graph, trail: seq<LibraryState>, s: LibraryState)
    requires LoadTrail(g, trail) && ContinuesTo(g, trail, s)
    ensures LoadTrail(g, trail + [s])
  {
    var longer := trail + [s];
    forall i | 0 <= i < |longer| - 1
      ensures Edge(g, longer[i], longer[i + 1])
    {
      assert i < |trail| - 1 ==> Edge(g, trail[i], trail[i + 1]);
    }
  }

  /** A dependency is verified in exactly the context in which `s` loads it, or leads back to `s`. */
  ghost predicate Relies(g: Graph, verified: set<LibraryState>, s: LibraryState, t: LibraryState) {
    t in verified || LeadsBack(g, t.path, s)
  }

  /** Some executable leads to the state. */
  ghost predicate Reachable(g: Graph, s: LibraryState) {
    exists trail :: LoadTrail(g, trail) && EndsIn(trail, s)
  }

  ghost predicate Exact(g: Graph, verified: set<LibraryState>, s: LibraryState) {
    && Reachable(g, s)
    && DepsOf(g, s).Some?
    && forall t {:trigger Relies(g, verified, s, t)} | t in DepsOf(g, s).value :: Relies(g, verified, s, t)
  }

  ghost predicate AllExact(g: Graph, verified: set<LibraryState>) {
    forall s {:trigger Exact(g, verified, s)} | s in verified :: Exact(g, verified, s)
  }

  lemma ExactMonotone(g: Graph, small: set<LibraryState>, large: set<LibraryState>, s: LibraryState)
    requires small <= large && Exact(g, small, s)
    ensures Exact(g, large, s)
  {
    forall t | t in DepsOf(g, s).value
      ensures Relies(g, large, s, t)
    {
      assert Relies(g, small, s, t);
    }
  }

  /** The active paths are those of a chain of dependencies. */
  ghost predicate ActiveTrail(g: Graph, active: set<Path>, trail: seq<LibraryState>) {
    LoadTrail(g, trail) && forall p :: p in active <==> OnTrail(trail, p)
  }

  lemma OnTrailGrows(trail: seq<LibraryState>, s: LibraryState, p: Path)
    ensures OnTrail(trail + [s], p) <==> OnTrail(trail, p) || p == s.path
  {
    var longer := trail + [s];
    if OnTrail(trail, p) {
      var i :| 0 <= i < |trail| && trail[i].path == p;
      assert longer[i].path == p;
    }
    assert longer[|trail|].path == s.path;
    if OnTrail(longer, p) {
      var i :| 0 <= i < |longer| && longer[i].path == p;
      assert i < |trail| ==> trail[i].path == p;
    }
  }

  lemma ActiveTrailGrows(g: Graph, active: set<Path>, trail: seq<LibraryState>, s: LibraryState)
    requires ActiveTrail(g, active, trail) && ContinuesTo(g, trail, s)
    ensures ActiveTrail(g, active + {s.path}, trail + [s])
  {
    TrailGrows(g, trail, s);
    forall p
      ensures p in active + {s.path} <==> OnTrail(trail + [s], p)
    {
      OnTrailGrows(trail, s, p);
    }
  }

  lemma {:induction false} VisitIsExact(g: Graph, from: Visited, active: set<Path>, trail: seq<LibraryState>, s: LibraryState)
    requires AllExact(g, from.verified) && ActiveTrail(g, active, trail) && ContinuesTo(g, trail, s)
    requires Visit(g, from, active, s).Some?
    ensures AllExact(g, Visit(g, from, active, s).value.verified)
    decreases from.left, 0
  {
    if !(s in from.verified || s.path in active) {
      var deps, inner := DepsOf(g, s).value, from.(left := from.left - 1);
      ActiveTrailGrows(g, active, trail, s);
      forall t | t in deps
        ensures ContinuesTo(g, trail + [s], t)
      {
        assert Edge(g, s, t);
      }
      VisitAllIsExact(g, inner, active + {s.path}, trail + [s], deps, |deps|);
      VisitAllGrows(g, inner, active + {s.path}, deps, |deps|);
      ClosesExactly(g, VisitAll(g, inner, active + {s.path}, deps, |deps|).value, active + {s.path}, trail + [s], s);
    }
  }

  lemma {:induction false} VisitAllIsExact(
    g: Graph, from: Visited, active: set<Path>, trail: seq<LibraryState>, deps: seq<LibraryState>, n: nat)
    requires n <= |deps| && AllExact(g, from.verified) && ActiveTrail(g, active, trail)
    requires forall t | t in deps :: ContinuesTo(g, trail, t)
    requires VisitAll(g, from, active, deps, n).Some?
    ensures AllExact(g, VisitAll(g, from, active, deps, n).value.verified)
    decreases from.left, n + 1
  {
    if n > 0 {
      VisitAllIsExact(g, from, active, trail, deps, n - 1);
      assert deps[n - 1] in deps;
      VisitIsExact(g, VisitAll(g, from, active, deps, n - 1).value, active, trail, deps[n - 1]);
    }
  }

  /** A state all of whose dependencies are verified or on the trail can be closed. */
  lemma ClosesExactly(g: Graph, v: Visited, active: set<Path>, trail: seq<LibraryState>, s: LibraryState)
    requires AllExact(g, v.verified) && ActiveTrail(g, active, trail) && EndsIn(trail, s) && DepsOf(g, s).Some?
    requires forall i | 0 <= i < |DepsOf(g, s).value| :: Reached(v, active, DepsOf(g, s).value[i])
    ensures AllExact(g, v.verified + {s})
  {
    var all, deps := v.verified + {s}, DepsOf(g, s).value;
    forall t | t in deps
      ensures Relies(g, all, s, t)
    {
      var i :| 0 <= i < |deps| && deps[i] == t;
      assert Reached(v, active, deps[i]);
      if t !in v.verified {
        assert LeadsBack(g, t.path, s);
      }
    }
    forall t | t in all
      ensures Exact(g, all, t)
    {
      if t in v.verified {
        ExactMonotone(g, v.verified, all, t);
      }
    }
  }

  // ----- Dependencies are verified or active, by path -----

  ghost predicate PathVerified(verified: set<LibraryState>, path: Path) {
    exists u :: u in verified && u.path == path
  }

  ghost predicate Known(g: Graph, verified: set<LibraryState>, active: set<Path>) {
    forall s, t {:trigger Edge(g, s, t)} | s in verified && Edge(g, s, t) ::
      t.path in active || PathVerified(verified, t.path)
  }

  lemma KnownGrows(g: Graph, v: set<LibraryState>, active: set<Path>, path: Path)
    requires Known(g, v, active)
    ensures Known(g, v, active + {path})
  {
  }

  lemma {:induction false} VisitKeepsKnown(g: Graph, from: Visited, active: set<Path>, s: LibraryState)
    requires Known(g, from.verified, active) && Visit(g, from, active, s).Some?
    ensures Known(g, Visit(g, from, active, s).value.verified, active)
    decreases from.left, 0
  {
    if !(s in from.verified || s.path in active) {
      var deps, inner := DepsOf(g, s).value, from.(left := from.left - 1);
      KnownGrows(g, from.verified, active, s.path);
      VisitAllKeepsKnown(g, inner, active + {s.path}, deps, |deps|);
      VisitAllGrows(g, inner, active + {s.path}, deps, |deps|);
      KnownCloses(g, VisitAll(g, inner, active + {s.path}, deps, |deps|).value, active, s);
    }
  }

  lemma {:induction false} VisitAllKeepsKnown(g: Graph, from: Visited, active: set<Path>, deps: seq<LibraryState>, n: nat)
    requires n <= |deps| && Known(g, from.verified, active) && VisitAll(g, from, active, deps, n).Some?
    ensures Known(g, VisitAll(g, from, active, deps, n).value.verified, active)
    decreases from.left, n + 1
  {
    if n > 0 {
      VisitAllKeepsKnown(g, from, active, deps, n - 1);
      VisitKeepsKnown(g, VisitAll(g, from, active, deps, n - 1).value, active, deps[n - 1]);
    }
  }

  lemma KnownCloses(g: Graph, v: Visited, active: set<Path>, s: LibraryState)
    requires Known(g, v.verified, active + {s.path}) && DepsOf(g, s).Some?
    requires forall i | 0 <= i < |DepsOf(g, s).value| :: Reached(v, active + {s.path}, DepsOf(g, s).value[i])
    ensures Known(g, v.verified + {s}, active)
  {
    var all := v.verified + {s};
    forall x, t | x in all && Edge(g, x, t)
      ensures t.path in active || PathVerified(all, t.path)
    {
      if x == s {
        var i :| 0 <= i < |DepsOf(g, s).value| && DepsOf(g, s).value[i] == t;
        assert Reached(v, active + {s.path}, DepsOf(g, s).value[i]);
      } else {
        assert x in v.verified;
      }
      if t.path !in active {
        if t.path == s.path {
          assert s in all && s.path == t.path;
        } else if t in v.verified {
          assert t in all;
        } else {
          var u :| u in v.verified && u.path == t.path;
          assert u in all;
        }
      }
    }
  }

  /** What holds between the audits of executables, when no library is being audited. */
  ghost predicate Settled(g: Graph, verified: set<LibraryState>) {
    AllExact(g, verified) && Known(g, verified, {})
  }

  /** Auditing everything an executable loads keeps this, and verifies exactly those states. */
  lemma EntrySettles(g: Graph, from: Visited, deps: seq<LibraryState>)
    requires Settled(g, from.verified) && forall t | t in deps :: IsEntry(g, t)
    requires VisitAll(g, from, {}, deps, |deps|).Some?
    ensures var after := VisitAll(g, from, {}, deps, |deps|).value;
            && Settled(g, after.verified) && Grows(from, {}, after)
            && forall t | t in deps :: t in after.verified
  {
    assert ActiveTrail(g, {}, []);
    VisitAllIsExact(g, from, {}, [], deps, |deps|);
    VisitAllKeepsKnown(g, from, {}, deps, |deps|);
    VisitAllGrows(g, from, {}, deps, |deps|);
    var after := VisitAll(g, from, {}, deps, |deps|).value;
    forall t | t in deps
      ensures t in after.verified
    {
      var i :| 0 <= i < |deps| && deps[i] == t;
      assert Reached(after, {}, deps[i]);
    }
  }

  // ----- Runs within a closed set -----

  /** Every dependency of the state is in the set. */
  ghost predicate ClosedAt(g: Graph, closed: set<LibraryState>, s: LibraryState) {
    DepsOf(g, s).Some? && forall t | t in DepsOf(g, s).value :: t in closed
  }

  ghost predicate Closed(g: Graph, closed: set<LibraryState>) {
    forall s {:trigger ClosedAt(g, closed, s)} | s in closed :: ClosedAt(g, closed, s)
  }

  ghost predicate PathsOf(active: set<Path>, trail: set<LibraryState>) {
    forall p :: p in active <==> exists s :: s in trail && s.path == p
  }

  ghost predicate WithinClosed(closed: set<LibraryState>, v: Visited, active: set<Path>, trail: set<LibraryState>) {
    && v.verified <= closed && trail <= closed && trail !! v.verified && PathsOf(active, trail)
    && v.left + |v.verified| + |trail| >= |closed|
  }

  lemma WithinBegins(closed: set<LibraryState>, v: Visited, active: set<Path>, trail: set<LibraryState>, s: LibraryState)
    requires WithinClosed(closed, v, active, trail) && s in closed && s !in v.verified && s.path !in active
    ensures v.left > 0 && s !in trail
    ensures WithinClosed(closed, v.(left := v.left - 1), active + {s.path}, trail + {s})
  {
    assert s !in trail;
    RoomFor(closed, v.verified, trail, s);
    ActiveSetGrows(active, trail, s);
    assert |trail + {s}| == |trail| + 1;
  }

  lemma ActiveSetGrows(active: set<Path>, trail: set<LibraryState>, s: LibraryState)
    requires PathsOf(active, trail)
    ensures PathsOf(active + {s.path}, trail + {s})
  {
    forall p
      ensures p in active + {s.path} <==> exists t :: t in trail + {s} && t.path == p
    {
      if p in active {
        var t :| t in trail && t.path == p;
        assert t in trail + {s};
      }
      if p == s.path {
        assert s in trail + {s};
      }
    }
  }

  lemma RoomFor(closed: set<LibraryState>, x: set<LibraryState>, y: set<LibraryState>, s: LibraryState)
    requires x <= closed && y <= closed && x !! y && s in closed && s !in x && s !in y
    ensures |x| + |y| < |closed|
  {
    var all := x + y + {s};
    assert |x + y| == |x| + |y| && |all| == |x + y| + 1;
    assert closed == all + (closed - all);
  }

  lemma WithinEnds(closed: set<LibraryState>, v: Visited, after: Visited, active: set<Path>, trail: set<LibraryState>, s: LibraryState)
    requires WithinClosed(closed, v, active, trail) && s in closed && s !in trail && s !in after.verified
    requires WithinClosed(closed, after, active + {s.path}, trail + {s})
    ensures WithinClosed(closed, after.(verified := after.verified + {s}), active, trail)
  {
    assert |trail + {s}| == |trail| + 1;
    assert |after.verified + {s}| == |after.verified| + 1;
  }

  /** Within a closed set no audit fails, and a budget for the set suffices. */
  lemma {:induction false} VisitSucceeds(
    g: Graph, closed: set<LibraryState>, from: Visited, active: set<Path>, trail: set<LibraryState>, s: LibraryState)
    requires Closed(g, closed) && WithinClosed(closed, from, active, trail) && s in closed
    ensures Visit(g, from, active, s).Some?
    ensures WithinClosed(closed, Visit(g, from, active, s).value, active, trail)
    decreases from.left, 0
  {
    if !(s in from.verified || s.path in active) {
      assert ClosedAt(g, closed, s);
      WithinBegins(closed, from, active, trail, s);
      var deps, inner := DepsOf(g, s).value, from.(left := from.left - 1);
      VisitAllSucceeds(g, closed, inner, active + {s.path}, trail + {s}, deps, |deps|);
      VisitAllGrows(g, inner, active + {s.path}, deps, |deps|);
      WithinEnds(closed, from, VisitAll(g, inner, active + {s.path}, deps, |deps|).value, active, trail, s);
    }
  }

  lemma {:induction false} VisitAllSucceeds(
    g: Graph, closed: set<LibraryState>, from: Visited, active: set<Path>, trail: set<LibraryState>, deps: seq<LibraryState>, n: nat)
    requires Closed(g, closed) && WithinClosed(closed, from, active, trail)
    requires n <= |deps| && forall t | t in deps :: t in closed
    ensures VisitAll(g, from, active, deps, n).Some?
    ensures WithinClosed(closed, VisitAll(g, from, active, deps, n).value, active, trail)
    decreases from.left, n + 1
  {
    if n > 0 {
      VisitAllSucceeds(g, closed, from, active, trail, deps, n - 1);
      assert deps[n - 1] in deps;
      VisitSucceeds(g, closed, VisitAll(g, from, active, deps, n - 1).value, active, trail, deps[n - 1]);
    }
  }

  // ----- Graphs in which no chain returns -----

  /** No chain of dependencies from an executable meets a path twice. */
  ghost predicate NoReturn(g: Graph) {
    forall trail | LoadTrail(g, trail) :: DistinctPaths(trail)
  }

  ghost predicate DistinctPaths(trail: seq<LibraryState>) {
    forall i, j | 0 <= i < j < |trail| :: trail[i].path != trail[j].path
  }

  lemma BackIsReturn(g: Graph, s: LibraryState, t: LibraryState)
    requires Edge(g, s, t) && LeadsBack(g, t.path, s)
    ensures !NoReturn(g)
  {
    var trail :| LoadTrail(g, trail) && EndsIn(trail, s) && OnTrail(trail, t.path);
    TrailGrows(g, trail, t);
    var longer := trail + [t];
    var i :| 0 <= i < |trail| && trail[i].path == t.path;
    assert longer[i].path == longer[|trail|].path;
    assert LoadTrail(g, longer) && !DistinctPaths(longer);
  }

  /** Then every verified state relies on verified states only, in exactly their contexts. */
  lemma NoReturnIsClosed(g: Graph, verified: set<LibraryState>)
    requires NoReturn(g) && AllExact(g, verified)
    ensures Closed(g, verified)
  {
    forall s, t | s in verified && Edge(g, s, t)
      ensures t in verified
    {
      assert Exact(g, verified, s) && Relies(g, verified, s, t);
      if t !in verified {
        BackIsReturn(g, s, t);
      }
    }
    EdgesClose(g, verified);
  }

  lemma EdgesClose(g: Graph, verified: set<LibraryState>)
    requires AllExact(g, verified) && forall s, t | s in verified && Edge(g, s, t) :: t in verified
    ensures Closed(g, verified)
  {
    forall s | s in verified
      ensures ClosedAt(g, verified, s)
    {
      assert Exact(g, verified, s);
      forall t | t in DepsOf(g, s).value
        ensures t in verified
      {
        assert Edge(g, s, t);
      }
    }
  }

  lemma {:induction false} VisitAllFails(g: Graph, from: Visited, active: set<Path>, deps: seq<LibraryState>, n: nat, m: nat)
    requires n <= m <= |deps| && VisitAll(g, from, active, deps, n).None?
    ensures VisitAll(g, from, active, deps, m).None?
  {
    if n < m {
      VisitAllFails(g, from, active, deps, n, m - 1);
    }
  }
}
