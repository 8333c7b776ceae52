/**
  The activity viewport: a fixed number of terminal rows shared by all running builders and
  sources, with one overflow queue for each kind.
 */
module Viewport {
  import opened Wrappers

  datatype Key = Builder(id: string) | Source(id: string)

  datatype Activity = Activity(message: string, failed: bool)

  type Active = map<Key, Activity>

  type Rows = seq<Option<Key>>

  datatype View = View(active: Active, visible: Rows, builders: seq<Key>, sources: seq<Key>)

  // ----- Row capacity -----

  const LIVE_STATUS_ROWS: nat := 3
  const MIN_AUTO_ACTIVITY_ROWS: nat := 4
  const TERMINAL_RESERVED_ROWS: nat := 2
  const USIZE_MAX: nat := 0xffff_ffff_ffff_ffff

  datatype ProgressPolicy = Summary | Fixed(maxLines: nat) | Auto

  function SaturatingSub(x: nat, y: nat): nat {
    if x < y then 0 else x - y
  }

  function Min(x: nat, y: nat): nat {
    if x < y then x else y
  }

  function Max(x: nat, y: nat): nat {
    if x < y then y else x
  }

  /** Rows given to activities; together with the fixed rows they never overflow the screen. */
  function ActivityRowCapacity(policy: ProgressPolicy, rows: nat, jobs: nat): (capacity: nat)
    ensures capacity > 0 ==> capacity + LIVE_STATUS_ROWS + TERMINAL_RESERVED_ROWS <= rows
    ensures capacity > 0 && policy.Fixed? ==> capacity + LIVE_STATUS_ROWS <= policy.maxLines
    ensures capacity <= jobs || capacity <= MIN_AUTO_ACTIVITY_ROWS
  {
    var physical := SaturatingSub(rows, LIVE_STATUS_ROWS + TERMINAL_RESERVED_ROWS);
    var concurrency := Max(jobs, MIN_AUTO_ACTIVITY_ROWS);
    match policy
    case Summary => 0
    case Fixed(maxLines) => Min(Min(SaturatingSub(maxLines, LIVE_STATUS_ROWS), physical), concurrency)
    case Auto => Min(Min(Min(rows * 3, USIZE_MAX) / 4, physical), concurrency)
  }

  // ----- Where keys are -----

  function Is(row: Option<Key>, key: Key): nat {
    if row == Some(key) then 1 else 0
  }

  /** How many rows show the key. */
  function InRows(rows: Rows, key: Key): nat {
    if rows == [] then 0 else InRows(rows[..|rows| - 1], key) + Is(rows[|rows| - 1], key)
  }

  /** How often the key waits in the queue. */
  function InQueue(queue: seq<Key>, key: Key): nat {
    if queue == [] then 0 else (if queue[0] == key then 1 else 0) + InQueue(queue[1..], key)
  }

  /** All places of the key, in a row or in a queue. */
  function Places(v: View, key: Key): nat {
    InRows(v.visible, key) + InQueue(v.builders, key) + InQueue(v.sources, key)
  }

  predicate Live(active: Active, key: Key) {
    key in active && !active[key].failed
  }

  /** A key waits only in the queue of its kind. */
  predicate Queued(v: View, key: Key) {
    if key.Builder? then InQueue(v.sources, key) == 0 else InQueue(v.builders, key) == 0
  }

  /**
    No key has two places; whatever has a place is active; every unfailed activity has a
    place; keys wait in the queue of their kind.
   */
  predicate ValidAt(v: View, key: Key) {
    && Places(v, key) <= 1
    && (Places(v, key) == 1 ==> key in v.active)
    && (Live(v.active, key) ==> Places(v, key) == 1)
    && Queued(v, key)
  }

  predicate QueuesEmpty(v: View) {
    v.builders == [] && v.sources == []
  }

  predicate Idle(rows: Rows, i: nat) {
    i < |rows| && rows[i].None?
  }

  /** A row is idle only when nothing waits. */
  predicate NoneWaits(v: View) {
    forall i | 0 <= i < |v.visible| :: Idle(v.visible, i) ==> QueuesEmpty(v)
  }

  ghost predicate Valid(v: View) {
    (forall key :: ValidAt(v, key)) && NoneWaits(v)
  }

  lemma {:induction false} RowUpdate(rows: Rows, i: nat, row: Option<Key>, key: Key)
    requires i < |rows|
    ensures InRows(rows[i := row], key) == InRows(rows, key) - Is(rows[i], key) + Is(row, key)
  {
    var front, changed := rows[..|rows| - 1], rows[i := row];
    if i < |front| {
      RowUpdate(front, i, row, key);
      assert changed[..|front|] == front[i := row];
    } else {
      assert changed[..|front|] == front;
    }
  }

  lemma {:induction false} RowsCount(rows: Rows, key: Key)
    ensures InRows(rows, key) > 0 <==> Some(key) in rows
  {
    if rows != [] {
      var front, last := rows[..|rows| - 1], rows[|rows| - 1];
      RowsCount(front, key);
      assert rows == front + [last];
    }
  }

  /** In a valid view the rows show different keys, and the activity of each can be looked up. */
  lemma RowsAreDistinct(v: View, i: nat, j: nat)
    requires Valid(v) && i < j < |v.visible| && v.visible[i].Some?
    ensures v.visible[i] != v.visible[j]
    ensures v.visible[i].value in v.active
  {
    var key := v.visible[i].value;
    assert ValidAt(v, key);
    RowsCount(v.visible, key);
    RowUpdate(v.visible, i, None, key);
    RowsCount(v.visible[i := None], key);
    assert v.visible[i := None][j] == v.visible[j];
  }

  // ----- Queues -----

  function DropDead(active: Active, queue: seq<Key>): seq<Key> {
    if queue == [] || Live(active, queue[0]) then queue else DropDead(active, queue[1..])
  }

  datatype Popped = Popped(view: View, key: Option<Key>)

  /** The next waiting key, builders first; failed keys in front of it are forgotten. */
  function PopHidden(v: View): Popped {
    var builders := DropDead(v.active, v.builders);
    if builders != [] then
      Popped(v.(builders := builders[1..]), Some(builders[0]))
    else
      var sources := DropDead(v.active, v.sources);
      if sources != [] then
        Popped(v.(builders := [], sources := sources[1..]), Some(sources[0]))
      else
        Popped(v.(builders := [], sources := []), None)
  }

  /** Only keys that are not live may lose places. */
  predicate Sheds(v: View, w: View, key: Key) {
    && Places(w, key) <= Places(v, key)
    && (Live(v.active, key) ==> Places(w, key) == Places(v, key))
    && (Queued(v, key) ==> Queued(w, key))
    && w.active == v.active
  }

  lemma {:induction false} DropDeadSheds(active: Active, queue: seq<Key>, key: Key)
    ensures InQueue(DropDead(active, queue), key) <= InQueue(queue, key)
    ensures Live(active, key) ==> InQueue(DropDead(active, queue), key) == InQueue(queue, key)
    ensures var left := DropDead(active, queue); left != [] ==> Live(active, left[0])
  {
    if queue != [] && !Live(active, queue[0]) {
      DropDeadSheds(active, queue[1..], key);
    }
  }

  /** The popped key counts as still having its place. */
  lemma PopSheds(v: View, key: Key)
    ensures var p := PopHidden(v);
            && p.view.active == v.active && p.view.visible == v.visible
            && Places(p.view, key) + Is(p.key, key) <= Places(v, key)
            && (Live(v.active, key) ==> Places(p.view, key) + Is(p.key, key) == Places(v, key))
            && (Queued(v, key) ==> Queued(p.view, key))
  {
    DropDeadSheds(v.active, v.builders, key);
    DropDeadSheds(v.active, v.sources, key);
  }

  lemma PopEmpties(v: View)
    ensures var p := PopHidden(v); p.key.None? || QueuesEmpty(v) ==> QueuesEmpty(p.view)
  {
  }

  /** Rows from `i` on that are idle take the next waiting key. */
  function FillFrom(v: View, i: nat): View
    requires i <= |v.visible|
    decreases |v.visible| - i
  {
    if i == |v.visible| then
      v
    else if v.visible[i].Some? then
      FillFrom(v, i + 1)
    else
      FillFrom(FillRow(v, i), i + 1)
  }

  function FillRow(v: View, i: nat): View
    requires i < |v.visible|
  {
    var p := PopHidden(v);
    p.view.(visible := v.visible[i := p.key])
  }

  /** An idle row before `i` means that nothing waits. */
  predicate NoneWaitsTo(v: View, i: nat)
    requires i <= |v.visible|
  {
    forall k | 0 <= k < i :: Idle(v.visible, k) ==> QueuesEmpty(v)
  }

  lemma FillRowSheds(v: View, i: nat, key: Key)
    requires i < |v.visible| && v.visible[i].None?
    ensures Sheds(v, FillRow(v, i), key)
  {
    PopSheds(v, key);
    RowUpdate(v.visible, i, PopHidden(v).key, key);
  }

  lemma {:induction false} FillSheds(v: View, i: nat, key: Key)
    requires i <= |v.visible|
    ensures Sheds(v, FillFrom(v, i), key)
    decreases |v.visible| - i
  {
    if i < |v.visible| {
      if v.visible[i].Some? {
        FillSheds(v, i + 1, key);
      } else {
        FillRowSheds(v, i, key);
        FillSheds(FillRow(v, i), i + 1, key);
      }
    }
  }

  lemma {:induction false} FillLeavesNoneWaiting(v: View, i: nat)
    requires i <= |v.visible| && NoneWaitsTo(v, i)
    ensures NoneWaits(FillFrom(v, i)) && |FillFrom(v, i).visible| == |v.visible|
    decreases |v.visible| - i
  {
    if i < |v.visible| {
      if v.visible[i].Some? {
        FillLeavesNoneWaiting(v, i + 1);
      } else {
        var w := FillRow(v, i);
        PopEmpties(v);
        forall k | 0 <= k < i + 1
          ensures Idle(w.visible, k) ==> QueuesEmpty(w)
        {
          assert k < i && Idle(w.visible, k) ==> Idle(v.visible, k);
        }
        FillLeavesNoneWaiting(w, i + 1);
      }
    }
  }

  // ----- The operations on values -----

  function Remove(queue: seq<Key>, key: Key): seq<Key> {
    if queue == [] then
      []
    else if queue[0] == key then
      Remove(queue[1..], key)
    else
      [queue[0]] + Remove(queue[1..], key)
  }

  function FirstIdle(rows: Rows): (i: nat)
    ensures i <= |rows| && (i < |rows| ==> rows[i].None?)
    ensures forall k | 0 <= k < i :: rows[k].Some?
  {
    if rows == [] || rows[0].None? then 0 else 1 + FirstIdle(rows[1..])
  }

  function RowOf(rows: Rows, key: Key): (i: nat)
    ensures i <= |rows| && (i < |rows| ==> rows[i] == Some(key))
    ensures forall k | 0 <= k < i :: rows[k] != Some(key)
  {
    if rows == [] || rows[0] == Some(key) then 0 else 1 + RowOf(rows[1..], key)
  }

  function PushBack(v: View, key: Key): View {
    if key.Builder? then v.(builders := v.builders + [key]) else v.(sources := v.sources + [key])
  }

  function PushFront(v: View, key: Key): View {
    if key.Builder? then v.(builders := [key] + v.builders) else v.(sources := [key] + v.sources)
  }

  function Started(v: View, key: Key, message: string): View {
    if key in v.active then
      v.(active := v.active[key := v.active[key].(message := message)])
    else
      var known := v.(active := v.active[key := Activity(message, false)]);
      var i := FirstIdle(v.visible);
      if i < |v.visible| then known.(visible := v.visible[i := Some(key)]) else PushBack(known, key)
  }

  function Unqueued(v: View, key: Key): View {
    v.(builders := Remove(v.builders, key), sources := Remove(v.sources, key))
  }

  function Finished(v: View, key: Key): View {
    var gone := v.(active := v.active - {key});
    var i := RowOf(v.visible, key);
    if i < |v.visible| then FillRow(gone, i) else Unqueued(gone, key)
  }

  function Failed(v: View, key: Key, message: string): View {
    if key !in v.active then
      v
    else if RowOf(v.visible, key) < |v.visible| then
      v.(active := v.active[key := Activity(message, true)])
    else
      Unqueued(v.(active := v.active - {key}), key)
  }

  /** Rows beyond the new capacity move to the front of the queues, in their order. */
  function Displace(v: View, c: nat): View
    requires c <= |v.visible|
    decreases |v.visible| - c
  {
    if c == |v.visible| then
      v
    else
      var last := v.visible[|v.visible| - 1];
      var shorter := v.(visible := v.visible[..|v.visible| - 1]);
      Displace(if last.Some? then PushFront(shorter, last.value) else shorter, c)
  }

  function NoRows(n: nat): (rows: Rows)
    ensures |rows| == n && forall i | 0 <= i < n :: rows[i].None?
  {
    seq(n, _ => None)
  }

  function Resized(v: View, c: nat): View {
    if c == |v.visible| then v else FillFrom(Reshaped(v, c), 0)
  }

  // ----- Every operation keeps the invariant -----

  lemma {:induction false} RemoveCounts(queue: seq<Key>, key: Key, k: Key)
    ensures InQueue(Remove(queue, key), k) == if k == key then 0 else InQueue(queue, k)
  {
    if queue != [] {
      RemoveCounts(queue[1..], key, k);
      assert queue[0] != key ==> Remove(queue, key)[1..] == Remove(queue[1..], key);
    }
  }

  lemma UnqueuedCounts(v: View, key: Key, k: Key)
    ensures var w := Unqueued(v, key);
            && Places(w, k) == (if k == key then InRows(v.visible, k) else Places(v, k))
            && (Queued(v, k) ==> Queued(w, k))
  {
    RemoveCounts(v.builders, key, k);
    RemoveCounts(v.sources, key, k);
  }

  lemma {:induction false} AppendCounts(queue: seq<Key>, key: Key, k: Key)
    ensures InQueue(queue + [key], k) == InQueue(queue, k) + (if k == key then 1 else 0)
  {
    if queue != [] {
      AppendCounts(queue[1..], key, k);
      assert (queue + [key])[1..] == queue[1..] + [key];
    } else {
      assert [key][1..] == [];
    }
  }

  lemma StartedAt(v: View, key: Key, message: string, k: Key)
    requires ValidAt(v, k)
    ensures ValidAt(Started(v, key, message), k)
  {
    if key !in v.active {
      var i := FirstIdle(v.visible);
      if i < |v.visible| {
        RowUpdate(v.visible, i, Some(key), k);
      } else {
        AppendCounts(v.builders, key, k);
        AppendCounts(v.sources, key, k);
      }
    }
  }

  lemma StartedIsValid(v: View, key: Key, message: string)
    requires Valid(v)
    ensures Valid(Started(v, key, message))
  {
    var w := Started(v, key, message);
    forall k
      ensures ValidAt(w, k)
    {
      StartedAt(v, key, message, k);
    }
    forall i | 0 <= i < |w.visible|
      ensures Idle(w.visible, i) ==> QueuesEmpty(w)
    {
      assert Idle(w.visible, i) ==> Idle(v.visible, i);
    }
  }

  lemma FinishedAt(v: View, key: Key, k: Key)
    requires ValidAt(v, k)
    ensures ValidAt(Finished(v, key), k)
  {
    var gone := v.(active := v.active - {key});
    var i := RowOf(v.visible, key);
    RowsCount(v.visible, key);
    if i < |v.visible| {
      PopSheds(gone, k);
      RowUpdate(v.visible, i, PopHidden(gone).key, k);
    } else {
      UnqueuedCounts(gone, key, k);
    }
  }

  lemma FinishedIsValid(v: View, key: Key)
    requires Valid(v)
    ensures Valid(Finished(v, key))
  {
    var w := Finished(v, key);
    forall k
      ensures ValidAt(w, k)
    {
      FinishedAt(v, key, k);
    }
    PopEmpties(v.(active := v.active - {key}));
    forall i | 0 <= i < |w.visible|
      ensures Idle(w.visible, i) ==> QueuesEmpty(w)
    {
      assert i != RowOf(v.visible, key) && Idle(w.visible, i) ==> Idle(v.visible, i);
    }
  }

  lemma FailedIsValid(v: View, key: Key, message: string)
    requires Valid(v)
    ensures Valid(Failed(v, key, message))
  {
    var w := Failed(v, key, message);
    RowsCount(v.visible, key);
    forall k
      ensures ValidAt(w, k)
    {
      assert ValidAt(v, k);
      UnqueuedCounts(v.(active := v.active - {key}), key, k);
    }
    forall i | 0 <= i < |w.visible|
      ensures Idle(w.visible, i) ==> QueuesEmpty(w)
    {
      assert Idle(w.visible, i) ==> Idle(v.visible, i);
    }
  }

  lemma {:induction false} DisplaceKeeps(v: View, c: nat, key: Key)
    requires c <= |v.visible|
    ensures Places(Displace(v, c), key) == Places(v, key)
    ensures Queued(v, key) ==> Queued(Displace(v, c), key)
    ensures Displace(v, c).active == v.active && |Displace(v, c).visible| == c
    decreases |v.visible| - c
  {
    if c < |v.visible| {
      var last := v.visible[|v.visible| - 1];
      var shorter := v.(visible := v.visible[..|v.visible| - 1]);
      if last.Some? {
        DisplaceKeeps(PushFront(shorter, last.value), c, key);
      } else {
        DisplaceKeeps(shorter, c, key);
      }
    }
  }

  lemma {:induction false} NoRowsShow(rows: Rows, n: nat, key: Key)
    ensures InRows(rows + NoRows(n), key) == InRows(rows, key)
  {
    if n > 0 {
      var longer := rows + NoRows(n);
      assert longer[..|longer| - 1] == rows + NoRows(n - 1);
      NoRowsShow(rows, n - 1, key);
    } else {
      assert rows + NoRows(0) == rows;
    }
  }

  /** The rows and queues of a resize, before idle rows are filled. */
  function Reshaped(v: View, c: nat): View {
    if c < |v.visible| then Displace(v, c) else v.(visible := v.visible + NoRows(c - |v.visible|))
  }

  lemma ReshapedKeeps(v: View, c: nat, key: Key)
    ensures var w := Reshaped(v, c);
            && w.active == v.active && |w.visible| == c
            && Places(w, key) == Places(v, key) && (Queued(v, key) ==> Queued(w, key))
  {
    if c < |v.visible| {
      DisplaceKeeps(v, c, key);
    } else {
      NoRowsShow(v.visible, c - |v.visible|, key);
    }
  }

  lemma ResizedAt(v: View, c: nat, key: Key)
    requires ValidAt(v, key)
    ensures ValidAt(Resized(v, c), key)
    ensures Resized(v, c).active == v.active
  {
    if c != |v.visible| {
      ReshapedKeeps(v, c, key);
      FillSheds(Reshaped(v, c), 0, key);
    }
  }

  lemma ResizedIsValid(v: View, c: nat)
    requires Valid(v)
    ensures Valid(Resized(v, c)) && |Resized(v, c).visible| == c
    ensures Resized(v, c).active == v.active
  {
    forall key
      ensures ValidAt(Resized(v, c), key)
    {
      ResizedAt(v, c, key);
    }
    ResizedAt(v, c, Builder(""));
    if c != |v.visible| {
      ReshapedKeeps(v, c, Builder(""));
      FillLeavesNoneWaiting(Reshaped(v, c), 0);
    }
  }
}
