/** How long a failure stays on the screen. */
module ViewportFailures {
  import opened Wrappers
  import opened Viewport
  import opened ActivityViewport

  predicate FailedIn(v: View, key: Key) {
    key in v.active && v.active[key].failed
  }

  predicate ShownAt(v: View, i: nat, key: Key) {
    i < |v.visible| && v.visible[i] == Some(key)
  }

  predicate Hidden(v: View, key: Key) {
    forall i | 0 <= i < |v.visible| :: !ShownAt(v, i, key)
  }

  /** The event neither finishes the key nor reports its failure again. */
  predicate Spares(event: Event, key: Key) {
    (event.Finish? || event.Fail?) ==> event.key != key
  }

  /** The event takes row `i` off the screen. */
  predicate CutsOff(event: Event, i: nat) {
    event.Resize? && event.c <= i
  }

  // ----- Rows under filling and displacement -----

  lemma PopIsLive(v: View)
    ensures PopHidden(v).key.Some? ==> Live(v.active, PopHidden(v).key.value)
  {
    DropDeadSheds(v.active, v.builders, Builder(""));
    DropDeadSheds(v.active, v.sources, Builder(""));
  }

  /** Filling leaves occupied rows alone and brings back no failed key. */
  lemma {:induction false} FillKeepsRows(v: View, n: nat, key: Key)
    requires n <= |v.visible| && FailedIn(v, key)
    ensures var w := FillFrom(v, n);
            && w.active == v.active && |w.visible| == |v.visible|
            && forall i | 0 <= i < |v.visible| :: ShownAt(w, i, key) <==> ShownAt(v, i, key)
    decreases |v.visible| - n
  {
    if n < |v.visible| {
      if v.visible[n].Some? {
        FillKeepsRows(v, n + 1, key);
      } else {
        PopIsLive(v);
        PopSheds(v, key);
        FillKeepsRows(FillRow(v, n), n + 1, key);
      }
    }
  }

  lemma {:induction false} DisplaceCuts(v: View, c: nat)
    requires c <= |v.visible|
    ensures Displace(v, c).visible == v.visible[..c] && Displace(v, c).active == v.active
    decreases |v.visible| - c
  {
    if c < |v.visible| {
      var last := v.visible[|v.visible| - 1];
      var shorter := v.(visible := v.visible[..|v.visible| - 1]);
      DisplaceCuts(if last.Some? then PushFront(shorter, last.value) else shorter, c);
    }
  }

  /** A resize shows a failed key where it was, as far as there are rows, and nowhere else. */
  lemma ResizeKeepsRows(v: View, c: nat, key: Key)
    requires FailedIn(v, key)
    ensures var w := Resized(v, c);
            && FailedIn(w, key) && |w.visible| == c
            && forall i | 0 <= i < c :: ShownAt(w, i, key) <==> ShownAt(v, i, key)
  {
    if c != |v.visible| {
      if c < |v.visible| {
        DisplaceCuts(v, c);
      }
      FillKeepsRows(Reshaped(v, c), 0, key);
    }
  }

  // ----- One event -----

  lemma EventKeepsRow(v: View, event: Event, key: Key, i: nat)
    requires FailedIn(v, key) && ShownAt(v, i, key) && Spares(event, key) && !CutsOff(event, i)
    ensures var w := Apply(v, event); FailedIn(w, key) && ShownAt(w, i, key)
  {
    match event
    case Start(_, _) =>
    case Finish(other) => PopSheds(v.(active := v.active - {other}), key);
    case Fail(_, _) =>
    case Resize(c) => ResizeKeepsRows(v, c, key);
  }

  lemma HiddenIn(v: View, w: View, key: Key)
    requires Hidden(v, key)
    requires forall i | 0 <= i < |w.visible| :: ShownAt(w, i, key) ==> ShownAt(v, i, key)
    ensures Hidden(w, key)
  {
    forall i | 0 <= i < |w.visible|
      ensures !ShownAt(w, i, key)
    {
      assert ShownAt(w, i, key) ==> ShownAt(v, i, key);
    }
  }

  lemma EventKeepsHidden(v: View, event: Event, key: Key)
    requires FailedIn(v, key) && Hidden(v, key) && Spares(event, key)
    ensures var w := Apply(v, event); FailedIn(w, key) && Hidden(w, key)
  {
    match event {
      case Start(_, _) =>
      case Finish(other) =>
        PopIsLive(v.(active := v.active - {other}));
        PopSheds(v.(active := v.active - {other}), key);
      case Fail(_, _) =>
      case Resize(c) =>
        ResizeKeepsRows(v, c, key);
    }
    HiddenIn(v, Apply(v, event), key);
  }

  lemma CutOffIsHidden(v: View, event: Event, key: Key, i: nat)
    requires Valid(v) && FailedIn(v, key) && ShownAt(v, i, key) && CutsOff(event, i)
    ensures var w := Apply(v, event); FailedIn(w, key) && Hidden(w, key)
  {
    ResizeKeepsRows(v, event.c, key);
    forall j | 0 <= j < event.c
      ensures !ShownAt(v, j, key)
    {
      if ShownAt(v, j, key) {
        RowsAreDistinct(v, j, i);
      }
    }
  }

  // ----- Whole runs -----

  /**
    After a visible failure, and events that neither finish the key nor report its failure
    again, its row still shows it if no resize has taken the row off the screen. Otherwise
    no row shows it, however many rows there are later.
   */
  lemma {:induction false} FailureStays(v: View, key: Key, message: string, i: nat, events: seq<Event>)
    requires Valid(v) && ShownAt(v, i, key)
    requires forall k | 0 <= k < |events| :: Spares(events[k], key)
    ensures var w := RunFrom(Failed(v, key, message), events);
            && Valid(w) && FailedIn(w, key)
            && if exists k | 0 <= k < |events| :: CutsOff(events[k], i) then Hidden(w, key) else ShownAt(w, i, key)
  {
    if events == [] {
      FailedIsValid(v, key, message);
      RowIsActive(v, i);
    } else {
      var front, last := events[..|events| - 1], events[|events| - 1];
      FailureStays(v, key, message, i, front);
      var before := RunFrom(Failed(v, key, message), front);
      ApplyIsValid(before, last);
      if k :| 0 <= k < |front| && CutsOff(front[k], i) {
        assert CutsOff(events[k], i);
        EventKeepsHidden(before, last, key);
      } else if CutsOff(last, i) {
        CutOffIsHidden(before, last, key, i);
      } else {
        EventKeepsRow(before, last, key, i);
      }
    }
  }
}
