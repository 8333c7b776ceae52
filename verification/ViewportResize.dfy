/**
  Filling idle rows in closed form, and when shrinking the viewport and growing it again
  brings back the same rows.
 */
module ViewportResize {
  import opened Wrappers
  import opened Text
  import opened Viewport

  // ----- Filling rows from a supply of keys -----

  function LiveOf(active: Active, queue: seq<Key>): (r: seq<Key>)
    ensures forall i | 0 <= i < |r| :: Live(active, r[i])
  {
    if queue == [] then
      []
    else if Live(active, queue[0]) then
      [queue[0]] + LiveOf(active, queue[1..])
    else
      LiveOf(active, queue[1..])
  }

  /** The keys that wait for a row, in the order in which they will get one. */
  function Supply(v: View): seq<Key> {
    LiveOf(v.active, v.builders) + LiveOf(v.active, v.sources)
  }

  function FillRows(rows: Rows, supply: seq<Key>): (r: Rows)
    ensures |r| == |rows|
  {
    if rows == [] then
      []
    else if rows[0].Some? then
      [rows[0]] + FillRows(rows[1..], supply)
    else if supply == [] then
      rows
    else
      [Some(supply[0])] + FillRows(rows[1..], supply[1..])
  }

  /** What is left of the supply. */
  function Rest(rows: Rows, supply: seq<Key>): seq<Key> {
    if rows == [] || supply == [] then
      supply
    else
      Rest(rows[1..], if rows[0].Some? then supply else supply[1..])
  }

  lemma {:induction false} DropDeadKeepsLive(active: Active, queue: seq<Key>)
    ensures LiveOf(active, DropDead(active, queue)) == LiveOf(active, queue)
    ensures DropDead(active, queue) == [] <==> LiveOf(active, queue) == []
    ensures var left := DropDead(active, queue); left != [] ==> Live(active, left[0])
  {
    if queue != [] && !Live(active, queue[0]) {
      DropDeadKeepsLive(active, queue[1..]);
    }
  }

  lemma PopTakesSupply(v: View)
    ensures var p, supply := PopHidden(v), Supply(v);
            && p.view.active == v.active
            && p.key == (if supply == [] then None else Some(supply[0]))
            && Supply(p.view) == (if supply == [] then [] else supply[1..])
  {
    DropDeadKeepsLive(v.active, v.builders);
    DropDeadKeepsLive(v.active, v.sources);
    var p, supply := PopHidden(v), Supply(v);
    var builders := DropDead(v.active, v.builders);
    if builders != [] {
      assert LiveOf(v.active, builders) == [builders[0]] + LiveOf(v.active, builders[1..]);
      assert supply[1..] == Supply(p.view);
    } else {
      assert supply == LiveOf(v.active, v.sources);
      assert supply != [] ==> supply[1..] == Supply(p.view);
    }
  }

  /** Row by row, filling consumes the supply in order. */
  lemma {:induction false} FillFromIsFillRows(v: View, i: nat)
    requires i <= |v.visible|
    ensures FillFrom(v, i).visible == v.visible[..i] + FillRows(v.visible[i..], Supply(v))
    ensures Supply(FillFrom(v, i)) == Rest(v.visible[i..], Supply(v))
    ensures FillFrom(v, i).active == v.active
    decreases |v.visible| - i
  {
    if i < |v.visible| {
      var rows := v.visible[i..];
      assert rows[1..] == v.visible[i + 1..];
      if rows[0].Some? {
        FillFromIsFillRows(v, i + 1);
        assert v.visible[..i + 1] == v.visible[..i] + [rows[0]];
      } else {
        PopTakesSupply(v);
        var w := FillRow(v, i);
        FillFromIsFillRows(w, i + 1);
        FillRowShape(v.visible, i, PopHidden(v).key);
        FillHead(v.visible[..i], rows, Supply(v));
      }
    } else {
      assert v.visible[..i] == v.visible;
    }
  }

  lemma FillRowShape(rows: Rows, i: nat, row: Option<Key>)
    requires i < |rows|
    ensures rows[i := row][..i + 1] == rows[..i] + [row]
    ensures rows[i := row][i + 1..] == rows[i..][1..]
  {
  }

  lemma FillHead(before: Rows, rows: Rows, supply: seq<Key>)
    requires rows != [] && rows[0].None?
    ensures var row := if supply == [] then None else Some(supply[0]);
            var left := if supply == [] then [] else supply[1..];
            && before + FillRows(rows, supply) == before + [row] + FillRows(rows[1..], left)
            && Rest(rows, supply) == Rest(rows[1..], left)
  {
    if supply == [] {
      NoSupply(rows[1..]);
      assert rows == [None] + rows[1..];
      ConcatAssociative(before, [None], rows[1..]);
    } else {
      ConcatAssociative(before, [Some(supply[0])], FillRows(rows[1..], supply[1..]));
    }
  }

  lemma {:induction false} NoSupply(rows: Rows)
    ensures FillRows(rows, []) == rows
  {
    if rows != [] && rows[0].Some? {
      NoSupply(rows[1..]);
    }
  }

  /** A finished key's row goes to the head of the waiting keys, builders before sources. */
  lemma FinishedPromotes(v: View, key: Key)
    requires RowOf(v.visible, key) < |v.visible|
    ensures var waiting := Supply(v.(active := v.active - {key})); var w := Finished(v, key);
            && w.visible == v.visible[RowOf(v.visible, key) := if waiting == [] then None else Some(waiting[0])]
            && Supply(w) == if waiting == [] then [] else waiting[1..]
  {
    PopTakesSupply(v.(active := v.active - {key}));
  }

  /** Without an idle row a new activity waits behind all others of its kind. */
  lemma StartedWaitsLast(v: View, key: Key, message: string)
    requires Valid(v) && key !in v.active && NoIdle(v.visible)
    ensures var w := Started(v, key, message);
            var builders, sources := LiveOf(v.active, v.builders), LiveOf(v.active, v.sources);
            && w.visible == v.visible
            && Supply(w) == if key.Builder? then builders + [key] + sources else builders + (sources + [key])
  {
    var active := v.active[key := Activity(message, false)];
    assert ValidAt(v, key);
    LiveUnmoved(v.active, key, message, v.builders);
    LiveUnmoved(v.active, key, message, v.sources);
    LiveAppend(active, v.builders, [key]);
    LiveAppend(active, v.sources, [key]);
    assert LiveOf(active, [key]) == [key] by {
      assert [key][1..] == [];
    }
  }

  lemma {:induction false} LiveUnmoved(active: Active, key: Key, message: string, queue: seq<Key>)
    requires InQueue(queue, key) == 0
    ensures LiveOf(active[key := Activity(message, false)], queue) == LiveOf(active, queue)
  {
    if queue != [] {
      LiveUnmoved(active, key, message, queue[1..]);
    }
  }

  predicate NoIdle(rows: Rows) {
    forall i | 0 <= i < |rows| :: rows[i].Some?
  }

  /** Nothing changes exactly when there is no idle row or no supply. */
  lemma {:induction false} FillFixpoint(rows: Rows, supply: seq<Key>)
    ensures FillRows(rows, supply) == rows <==> NoIdle(rows) || supply == []
    ensures NoIdle(rows) || supply == [] ==> Rest(rows, supply) == supply
    ensures NoIdle(FillRows(rows, supply)) || Rest(rows, supply) == []
  {
    if rows != [] {
      var filled := FillRows(rows, supply);
      if rows[0].Some? {
        FillFixpoint(rows[1..], supply);
        assert filled[1..] == FillRows(rows[1..], supply);
      } else if supply != [] {
        FillFixpoint(rows[1..], supply[1..]);
        assert filled[1..] == FillRows(rows[1..], supply[1..]);
        assert filled[0] != rows[0];
      }
    }
  }

  lemma {:induction false} FillAppend(a: Rows, b: Rows, supply: seq<Key>)
    ensures FillRows(a + b, supply) == FillRows(a, supply) + FillRows(b, Rest(a, supply))
  {
    if a == [] {
      assert a + b == b;
    } else {
      assert (a + b)[1..] == a[1..] + b;
      if a[0].Some? {
        FillAppend(a[1..], b, supply);
        NoSupply(b);
        NoSupply(a);
        assert supply == [] ==> FillRows(a[1..], supply) == a[1..] by {
          NoSupply(a[1..]);
        }
      } else if supply == [] {
        NoSupply(b);
      } else {
        FillAppend(a[1..], b, supply[1..]);
      }
    }
  }

  lemma {:induction false} FillEmptyRows(n: nat, supply: seq<Key>, i: nat)
    requires i < n
    ensures FillRows(NoRows(n), supply)[i] == if i < |supply| then Some(supply[i]) else None
  {
    var rows := NoRows(n);
    assert rows[1..] == NoRows(n - 1);
    if supply != [] && i > 0 {
      FillEmptyRows(n - 1, supply[1..], i - 1);
    }
  }

  // ----- Displaced keys -----

  function Keys(rows: Rows): seq<Key> {
    if rows == [] then
      []
    else
      Keys(rows[..|rows| - 1]) + (if rows[|rows| - 1].Some? then [rows[|rows| - 1].value] else [])
  }

  function Kind(keys: seq<Key>, builder: bool): (r: seq<Key>)
    ensures forall i | 0 <= i < |r| :: r[i].Builder? == builder
  {
    if keys == [] then
      []
    else
      Kind(keys[..|keys| - 1], builder)
      + (if keys[|keys| - 1].Builder? == builder then [keys[|keys| - 1]] else [])
  }

  lemma KindSnoc(keys: seq<Key>, key: Key, builder: bool)
    ensures Kind(keys + [key], builder) == Kind(keys, builder) + (if key.Builder? == builder then [key] else [])
  {
    assert (keys + [key])[..|keys|] == keys;
  }

  lemma KindPush(inner: seq<Key>, key: Key, queue: seq<Key>, builder: bool)
    ensures Kind(inner, builder) + (if key.Builder? == builder then [key] + queue else queue)
            == Kind(inner + [key], builder) + queue
  {
    KindSnoc(inner, key, builder);
    ConcatAssociative(Kind(inner, builder), [key], queue);
  }

  lemma {:induction false} DisplaceShape(v: View, c: nat)
    requires c <= |v.visible|
    ensures var w, gone := Displace(v, c), Keys(v.visible[c..]);
            && w.active == v.active && w.visible == v.visible[..c]
            && w.builders == Kind(gone, true) + v.builders
            && w.sources == Kind(gone, false) + v.sources
    decreases |v.visible| - c
  {
    if c < |v.visible| {
      var n := |v.visible| - 1;
      var last := v.visible[n];
      var shorter := v.(visible := v.visible[..n]);
      assert v.visible[c..][..n - c] == shorter.visible[c..];
      assert shorter.visible[..c] == v.visible[..c];
      var inner := Keys(shorter.visible[c..]);
      if last.Some? {
        assert Keys(v.visible[c..]) == inner + [last.value];
        DisplaceShape(PushFront(shorter, last.value), c);
        KindPush(inner, last.value, v.builders, true);
        KindPush(inner, last.value, v.sources, false);
      } else {
        DisplaceShape(shorter, c);
        assert Keys(v.visible[c..]) == inner;
      }
    } else {
      assert v.visible[c..] == [] && v.visible[..c] == v.visible;
    }
  }

  lemma {:induction false} LiveAppend(active: Active, a: seq<Key>, b: seq<Key>)
    ensures LiveOf(active, a + b) == LiveOf(active, a) + LiveOf(active, b)
  {
    if a == [] {
      assert a + b == b;
    } else {
      LiveAppend(active, a[1..], b);
      assert (a + b)[1..] == a[1..] + b;
    }
  }

  /** The supply of keys once the rows from `c` on have been displaced. */
  function DisplacedSupply(v: View, c: nat): seq<Key>
    requires c <= |v.visible|
  {
    var gone := Keys(v.visible[c..]);
    LiveOf(v.active, Kind(gone, true)) + LiveOf(v.active, v.builders)
    + (LiveOf(v.active, Kind(gone, false)) + LiveOf(v.active, v.sources))
  }

  /** The rows after shrinking to `c` and growing back to the old size. */
  lemma ShrinkAndRegrow(v: View, c: nat)
    requires c < |v.visible|
    ensures var n := |v.visible|; var supply := DisplacedSupply(v, c);
            Resized(Resized(v, c), n).visible
            == FillRows(v.visible[..c], supply) + FillRows(NoRows(n - c), Rest(v.visible[..c], supply))
  {
    var n, supply := |v.visible|, DisplacedSupply(v, c);
    var reshaped := Reshaped(v, c);
    DisplaceShape(v, c);
    var gone := Keys(v.visible[c..]);
    LiveAppend(v.active, Kind(gone, true), v.builders);
    LiveAppend(v.active, Kind(gone, false), v.sources);
    assert Supply(reshaped) == supply;
    FillFromIsFillRows(reshaped, 0);
    var small := Resized(v, c);
    var rows := v.visible[..c];
    assert reshaped.visible[0..] == rows;
    assert small.visible == FillRows(rows, supply) && Supply(small) == Rest(rows, supply);
    var regrown := Reshaped(small, n);
    assert Supply(regrown) == Supply(small);
    FillFromIsFillRows(regrown, 0);
    assert regrown.visible[0..] == small.visible + NoRows(n - c);
    FillAppend(small.visible, NoRows(n - c), Supply(small));
    FillFixpoint(rows, supply);
    FillFixpoint(small.visible, Supply(small));
  }

  /** The rows show the supply from its head on; rows beyond its end are idle. */
  predicate Shows(rows: Rows, supply: seq<Key>) {
    forall i | 0 <= i < |rows| :: rows[i] == if i < |supply| then Some(supply[i]) else None
  }

  lemma FillEmptyShows(rows: Rows, supply: seq<Key>)
    ensures FillRows(NoRows(|rows|), supply) == rows <==> Shows(rows, supply)
  {
    var filled := FillRows(NoRows(|rows|), supply);
    forall i | 0 <= i < |rows|
      ensures filled[i] == if i < |supply| then Some(supply[i]) else None
    {
      FillEmptyRows(|rows|, supply, i);
    }
  }

  lemma SplitEqual(a: Rows, b: Rows, x: Rows, y: Rows)
    requires |a| == |x|
    ensures a + b == x + y <==> a == x && b == y
  {
    if a + b == x + y {
      assert (a + b)[..|a|] == a && (x + y)[..|a|] == x;
      assert (a + b)[|a|..] == b && (x + y)[|a|..] == y;
    }
  }

  /** The old rows come back exactly when nothing moved up and the tail is the supply's head. */
  lemma RestoredRows(v: View, c: nat)
    requires c < |v.visible|
    ensures Resized(Resized(v, c), |v.visible|).visible == v.visible <==>
              && (NoIdle(v.visible[..c]) || DisplacedSupply(v, c) == [])
              && Shows(v.visible[c..], DisplacedSupply(v, c))
  {
    ShrinkAndRegrow(v, c);
    RefilledRows(v.visible[..c], v.visible[c..], DisplacedSupply(v, c));
    assert v.visible == v.visible[..c] + v.visible[c..];
  }

  lemma RefilledRows(rows: Rows, tail: Rows, supply: seq<Key>)
    ensures FillRows(rows, supply) + FillRows(NoRows(|tail|), Rest(rows, supply)) == rows + tail <==>
              (NoIdle(rows) || supply == []) && Shows(tail, supply)
  {
    FillFixpoint(rows, supply);
    SplitEqual(FillRows(rows, supply), FillRows(NoRows(|tail|), Rest(rows, supply)), rows, tail);
    FillEmptyShows(tail, supply);
  }

  // ----- The condition on the rows -----

  /** No row from `c` on is taken after an idle row. */
  predicate IdleTrails(v: View, c: nat) {
    forall i, j | 0 <= i < j < |v.visible| && c <= j :: v.visible[i].None? ==> v.visible[j].None?
  }

  /** What the caller can check: which keys would be displaced, and what waits. */
  predicate Restorable(v: View, c: nat)
    requires c <= |v.visible|
  {
    var gone := Keys(v.visible[c..]);
    && IdleTrails(v, c)
    && (forall i | 0 <= i < |gone| :: Live(v.active, gone[i]))
    && gone == Kind(gone, true) + Kind(gone, false)
    && (Kind(gone, false) != [] ==> LiveOf(v.active, v.builders) == [])
  }

  lemma {:induction false} KindLive(active: Active, keys: seq<Key>, builder: bool)
    requires forall i | 0 <= i < |keys| :: Live(active, keys[i])
    ensures LiveOf(active, Kind(keys, builder)) == Kind(keys, builder)
  {
    KindStaysLive(active, keys, builder);
    LiveAll(active, Kind(keys, builder));
  }

  lemma {:induction false} KindStaysLive(active: Active, keys: seq<Key>, builder: bool)
    requires forall i | 0 <= i < |keys| :: Live(active, keys[i])
    ensures forall i | 0 <= i < |Kind(keys, builder)| :: Live(active, Kind(keys, builder)[i])
  {
    if keys != [] {
      KindStaysLive(active, keys[..|keys| - 1], builder);
    }
  }

  lemma {:induction false} LiveBuilders(active: Active, queue: seq<Key>)
    requires forall i | 0 <= i < |queue| :: queue[i].Builder?
    ensures forall i | 0 <= i < |LiveOf(active, queue)| :: LiveOf(active, queue)[i].Builder?
  {
    if queue != [] {
      LiveBuilders(active, queue[1..]);
    }
  }

  lemma {:induction false} LiveAll(active: Active, keys: seq<Key>)
    requires forall i | 0 <= i < |keys| :: Live(active, keys[i])
    ensures LiveOf(active, keys) == keys
  {
    if keys != [] {
      LiveAll(active, keys[1..]);
    }
  }

  /** Rows that show a supply hold its head, then nothing. */
  lemma {:induction false} ShownKeys(rows: Rows, supply: seq<Key>)
    requires Shows(rows, supply)
    ensures Keys(rows) == supply[..Min(|rows|, |supply|)]
  {
    if rows != [] {
      var front := rows[..|rows| - 1];
      ShownKeys(front, supply);
    }
  }

  /** Rows whose idle ones trail show exactly their keys. */
  lemma {:induction false} TrailingRows(rows: Rows)
    requires forall i, j | 0 <= i < j < |rows| :: rows[i].None? ==> rows[j].None?
    ensures |Keys(rows)| <= |rows| && Shows(rows, Keys(rows))
  {
    if rows != [] {
      var front, last := rows[..|rows| - 1], rows[|rows| - 1];
      TrailingRows(front);
      if last.Some? {
        assert NoIdle(front);
        assert front != [] ==> front[|front| - 1].Some?;
      }
    }
  }

  /** With the condition, the supply is the displaced keys followed by those that waited. */
  lemma RestorableSupply(v: View, c: nat)
    requires c <= |v.visible| && Restorable(v, c)
    ensures DisplacedSupply(v, c) == Keys(v.visible[c..]) + (LiveOf(v.active, v.builders) + LiveOf(v.active, v.sources))
  {
    var gone := Keys(v.visible[c..]);
    var builders, sources := Kind(gone, true), Kind(gone, false);
    var waiting, more := LiveOf(v.active, v.builders), LiveOf(v.active, v.sources);
    KindLive(v.active, gone, true);
    KindLive(v.active, gone, false);
    if sources == [] {
      ConcatAssociative(builders, waiting, more);
    } else {
      ConcatAssociative(builders, sources, more);
    }
  }

  lemma RestorableIsRestored(v: View, c: nat)
    requires Valid(v) && c < |v.visible| && Restorable(v, c)
    ensures NoIdle(v.visible[..c]) || DisplacedSupply(v, c) == []
    ensures Shows(v.visible[c..], DisplacedSupply(v, c))
  {
    var tail := v.visible[c..];
    var gone, waiting := Keys(tail), LiveOf(v.active, v.builders) + LiveOf(v.active, v.sources);
    RestorableSupply(v, c);
    forall i, j | 0 <= i < j < |tail|
      ensures tail[i].None? ==> tail[j].None?
    {
      assert v.visible[c + i] == tail[i] && v.visible[c + j] == tail[j];
    }
    TrailingRows(tail);
    assert !NoIdle(v.visible) ==> waiting == [] by {
      if !NoIdle(v.visible) {
        var i :| 0 <= i < |v.visible| && v.visible[i].None?;
        assert Idle(v.visible, i);
      }
    }
    if !NoIdle(v.visible[..c]) {
      var i :| 0 <= i < c && v.visible[..c][i].None?;
      assert v.visible[i].None?;
      assert tail[0] == v.visible[c] && tail[0].None?;
    } else if |gone| < |tail| {
      assert tail[|gone|] == v.visible[c + |gone|];
    }
  }

  lemma {:induction false} KindSizes(keys: seq<Key>)
    ensures |Kind(keys, true)| + |Kind(keys, false)| == |keys|
  {
    if keys != [] {
      KindSizes(keys[..|keys| - 1]);
    }
  }

  lemma {:induction false} KindOfAll(keys: seq<Key>, n: nat)
    requires n <= |keys| && forall i | 0 <= i < n :: keys[i].Builder?
    ensures |Kind(keys, true)| >= n
  {
    if n < |keys| {
      KindOfAll(keys[..|keys| - 1], n);
    } else if n > 0 {
      KindOfAll(keys[..|keys| - 1], n - 1);
    }
  }

  /** A merge of builders and sources that begins a list with the builders first is in that order. */
  lemma MergedInOrder(gone: seq<Key>, waiting: seq<Key>, more: seq<Key>)
    requires forall i | 0 <= i < |waiting| :: waiting[i].Builder?
    requires gone <= Kind(gone, true) + waiting + (Kind(gone, false) + more)
    ensures gone == Kind(gone, true) + Kind(gone, false)
    ensures Kind(gone, false) != [] ==> waiting == []
  {
    var builders, sources := Kind(gone, true), Kind(gone, false);
    KindSizes(gone);
    if waiting == [] {
      MergeTrims(gone, builders, sources, more);
    } else {
      var n := Min(|gone|, |builders| + 1);
      BeginsWithBuilders(gone, builders, waiting, sources + more, n);
      KindOfAll(gone, n);
      assert sources == [];
      MergeTrims(gone, builders, [], waiting + more);
    }
  }

  lemma MergeTrims(gone: seq<Key>, builders: seq<Key>, sources: seq<Key>, more: seq<Key>)
    requires gone <= builders + sources + more && |gone| == |builders| + |sources|
    ensures gone == builders + sources
  {
  }

  lemma BeginsWithBuilders(gone: seq<Key>, builders: seq<Key>, waiting: seq<Key>, rest: seq<Key>, n: nat)
    requires forall i | 0 <= i < |builders| :: builders[i].Builder?
    requires forall i | 0 <= i < |waiting| :: waiting[i].Builder?
    requires gone <= builders + waiting + rest && n <= |gone| && n <= |builders| + |waiting|
    ensures forall i | 0 <= i < n :: gone[i].Builder?
  {
    var all := builders + waiting + rest;
    assert forall i | 0 <= i < n :: gone[i] == all[i];
  }

  lemma RestoredIsRestorable(v: View, c: nat)
    requires Valid(v) && c < |v.visible|
    requires NoIdle(v.visible[..c]) || DisplacedSupply(v, c) == []
    requires Shows(v.visible[c..], DisplacedSupply(v, c))
    ensures Restorable(v, c)
  {
    var tail, supply := v.visible[c..], DisplacedSupply(v, c);
    var gone := Keys(tail);
    ShownKeys(tail, supply);
    RestoredTrails(v, c, supply);
    forall i | 0 <= i < |gone|
      ensures Live(v.active, gone[i])
    {
      SupplyIsLive(v, c, i);
    }
    BuildersWait(v);
    LiveBuilders(v.active, v.builders);
    KindLive(v.active, gone, true);
    KindLive(v.active, gone, false);
    MergedInOrder(gone, LiveOf(v.active, v.builders), LiveOf(v.active, v.sources));
  }

  lemma RestoredTrails(v: View, c: nat, supply: seq<Key>)
    requires c < |v.visible| && Shows(v.visible[c..], supply)
    requires NoIdle(v.visible[..c]) || supply == []
    ensures IdleTrails(v, c)
  {
    var tail := v.visible[c..];
    forall i, j | 0 <= i < j < |v.visible| && c <= j
      ensures v.visible[i].None? ==> v.visible[j].None?
    {
      assert tail[j - c] == v.visible[j];
      if i < c {
        assert v.visible[..c][i] == v.visible[i];
      } else {
        assert tail[i - c] == v.visible[i];
      }
    }
  }

  lemma SupplyIsLive(v: View, c: nat, i: nat)
    requires c <= |v.visible| && i < |DisplacedSupply(v, c)|
    ensures Live(v.active, DisplacedSupply(v, c)[i])
  {
  }

  lemma BuildersWait(v: View)
    requires Valid(v)
    ensures forall i | 0 <= i < |v.builders| :: v.builders[i].Builder?
  {
    forall i | 0 <= i < |v.builders|
      ensures v.builders[i].Builder?
    {
      QueuedKind(v, v.builders[i]);
    }
  }

  lemma QueuedKind(v: View, key: Key)
    requires Valid(v) && key in v.builders
    ensures key.Builder?
  {
    assert ValidAt(v, key);
    QueueCount(v.builders, key);
  }

  lemma {:induction false} QueueCount(queue: seq<Key>, key: Key)
    requires key in queue
    ensures InQueue(queue, key) > 0
  {
    if queue[0] != key {
      QueueCount(queue[1..], key);
    }
  }

  /**
    Shrinking the viewport and growing it back restores the rows if and only if no displaced
    row came after an idle one, no displaced key had failed, builders were displaced before
    sources, and no builder was waiting in front of a displaced source.
   */
  lemma ShrinkAndRegrowRestores(v: View, c: nat)
    requires Valid(v) && c < |v.visible|
    ensures Resized(Resized(v, c), |v.visible|).visible == v.visible <==> Restorable(v, c)
  {
    RestoredRows(v, c);
    if Restorable(v, c) {
      RestorableIsRestored(v, c);
    } else if Resized(Resized(v, c), |v.visible|).visible == v.visible {
      RestoredIsRestorable(v, c);
    }
  }
}
