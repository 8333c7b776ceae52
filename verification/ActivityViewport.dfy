/** The viewport as an object, updated in place by start, finish, fail and resize. */
module ActivityViewport {
  import opened Wrappers
  import opened Viewport

  class ActivityViewport {
    var active: Active
    var visible: Rows
    var hiddenBuilders: seq<Key>
    var hiddenSources: seq<Key>
    var capacity: nat

    constructor ()
      ensures Ok() && Now() == View(map[], [], [], [])
    {
      active, visible, hiddenBuilders, hiddenSources, capacity := map[], [], [], [], 0;
    }

    ghost function Now(): View
      reads this
    {
      View(active, visible, hiddenBuilders, hiddenSources)
    }

    ghost predicate Ok()
      reads this
    {
      Valid(Now()) && |visible| == capacity
    }

    method StartOrUpdate(key: Key, message: string)
      requires Ok()
      modifies this
      ensures Ok() && capacity == old(capacity)
      ensures Now() == Started(old(Now()), key, message)
    {
      StartedIsValid(Now(), key, message);
      if key in active {
        active := active[key := active[key].(message := message)];
        return;
      }
      active := active[key := Activity(message, false)];
      var slot := FirstIdle(visible);
      if slot < |visible| {
        visible := visible[slot := Some(key)];
      } else if key.Builder? {
        hiddenBuilders := hiddenBuilders + [key];
      } else {
        hiddenSources := hiddenSources + [key];
      }
    }

    method Finish(key: Key)
      requires Ok()
      modifies this
      ensures Ok() && capacity == old(capacity)
      ensures Now() == Finished(old(Now()), key)
    {
      FinishedIsValid(Now(), key);
      active := active - {key};
      var index := RowOf(visible, key);
      if index < |visible| {
        var next := TakeHidden();
        visible := visible[index := next];
      } else {
        hiddenBuilders := Remove(hiddenBuilders, key);
        hiddenSources := Remove(hiddenSources, key);
      }
    }

    /** A visible failure keeps its row; a hidden one leaves the model. */
    method Fail(key: Key, message: string)
      requires Ok()
      modifies this
      ensures Ok() && capacity == old(capacity)
      ensures Now() == Failed(old(Now()), key, message)
    {
      FailedIsValid(Now(), key, message);
      if key !in active {
        return;
      }
      active := active[key := Activity(message, true)];
      if RowOf(visible, key) == |visible| {
        active := active - {key};
        assert active == old(active) - {key};
        hiddenBuilders := Remove(hiddenBuilders, key);
        hiddenSources := Remove(hiddenSources, key);
      }
    }

    method SetCapacity(newCapacity: nat)
      requires Ok()
      modifies this
      ensures Ok() && capacity == newCapacity
      ensures Now() == Resized(old(Now()), newCapacity)
    {
      ghost var before := Now();
      ResizedIsValid(before, newCapacity);
      if capacity == newCapacity {
        return;
      }
      if newCapacity < |visible| {
        DisplaceRows(newCapacity);
      } else {
        visible := visible + NoRows(newCapacity - |visible|);
      }
      capacity := newCapacity;
      FillIdleRows();
    }

    /** Cuts the rows and puts the keys that lose theirs in front of the queues. */
    method DisplaceRows(newCapacity: nat)
      requires newCapacity < |visible|
      modifies this`visible, this`hiddenBuilders, this`hiddenSources
      ensures Now() == Displace(old(Now()), newCapacity)
    {
      ghost var before, rows := Now(), visible;
      var displaced := visible[newCapacity..];
      visible := visible[..newCapacity];
      assert rows[..|rows|] == rows;
      var i := |displaced|;
      while i > 0
        invariant 0 <= i <= |displaced| && visible == rows[..newCapacity]
        invariant Displace(Now().(visible := rows[..newCapacity + i]), newCapacity) == Displace(before, newCapacity)
      {
        i := i - 1;
        assert rows[..newCapacity + i + 1][..newCapacity + i] == rows[..newCapacity + i];
        if displaced[i].Some? {
          if displaced[i].value.Builder? {
            hiddenBuilders := [displaced[i].value] + hiddenBuilders;
          } else {
            hiddenSources := [displaced[i].value] + hiddenSources;
          }
        }
      }
    }

    method TakeHidden() returns (next: Option<Key>)
      modifies this`hiddenBuilders, this`hiddenSources
      ensures Popped(Now(), next) == PopHidden(old(Now()))
    {
      ghost var before := Now();
      while hiddenBuilders != []
        invariant DropDead(active, hiddenBuilders) == DropDead(active, before.builders)
        invariant hiddenSources == before.sources
      {
        var key := hiddenBuilders[0];
        hiddenBuilders := hiddenBuilders[1..];
        if Live(active, key) {
          return Some(key);
        }
      }
      while hiddenSources != []
        invariant hiddenBuilders == [] && DropDead(active, before.builders) == []
        invariant DropDead(active, hiddenSources) == DropDead(active, before.sources)
      {
        var key := hiddenSources[0];
        hiddenSources := hiddenSources[1..];
        if Live(active, key) {
          return Some(key);
        }
      }
      return None;
    }

    method FillIdleRows()
      modifies this`visible, this`hiddenBuilders, this`hiddenSources
      ensures Now() == FillFrom(old(Now()), 0)
    {
      ghost var before := Now();
      var n := |visible|;
      for index := 0 to n
        invariant |visible| == n
        invariant FillFrom(Now(), index) == FillFrom(before, 0)
      {
        if visible[index].None? {
          var next := TakeHidden();
          visible := visible[index := next];
        }
      }
    }

    /** What each row displays. Every lookup succeeds. */
    method RowMessages() returns (messages: seq<Option<string>>)
      requires Ok()
      ensures |messages| == capacity
      ensures forall i | 0 <= i < |messages| ::
                if visible[i].None? then messages[i].None?
                else visible[i].value in active && messages[i] == Some(active[visible[i].value].message)
    {
      messages := [];
      for i := 0 to |visible|
        invariant |messages| == i
        invariant forall k | 0 <= k < i ::
                    if visible[k].None? then messages[k].None?
                    else visible[k].value in active && messages[k] == Some(active[visible[k].value].message)
      {
        if visible[i].Some? {
          RowIsActive(Now(), i);
          messages := messages + [Some(active[visible[i].value].message)];
        } else {
          messages := messages + [None];
        }
      }
    }
  }

  lemma RowIsActive(v: View, i: nat)
    requires Valid(v) && i < |v.visible| && v.visible[i].Some?
    ensures v.visible[i].value in v.active
  {
    assert ValidAt(v, v.visible[i].value);
    RowsCount(v.visible, v.visible[i].value);
  }

  // ----- Runs -----

  datatype Event = Start(key: Key, message: string) | Finish(key: Key) | Fail(key: Key, message: string) | Resize(c: nat)

  function Apply(v: View, event: Event): View {
    match event
    case Start(key, message) => Started(v, key, message)
    case Finish(key) => Finished(v, key)
    case Fail(key, message) => Failed(v, key, message)
    case Resize(c) => Resized(v, c)
  }

  function RunFrom(v: View, events: seq<Event>): View {
    if events == [] then v else Apply(RunFrom(v, events[..|events| - 1]), events[|events| - 1])
  }

  function Run(events: seq<Event>): View {
    RunFrom(View(map[], [], [], []), events)
  }

  /** The capacity last asked for. */
  function LastCapacity(events: seq<Event>): nat {
    if events == [] then 0
    else if events[|events| - 1].Resize? then events[|events| - 1].c
    else LastCapacity(events[..|events| - 1])
  }

  lemma ApplyIsValid(v: View, event: Event)
    requires Valid(v)
    ensures Valid(Apply(v, event))
    ensures |Apply(v, event).visible| == if event.Resize? then event.c else |v.visible|
  {
    match event
    case Start(key, message) => StartedIsValid(v, key, message);
    case Finish(key) => FinishedIsValid(v, key);
    case Fail(key, message) => FailedIsValid(v, key, message);
    case Resize(c) => ResizedIsValid(v, c);
  }

  /** After any events the view is valid and has as many rows as last asked for. */
  lemma {:induction false} RunIsValid(events: seq<Event>)
    ensures Valid(Run(events))
    ensures |Run(events).visible| == LastCapacity(events)
  {
    if events != [] {
      RunIsValid(events[..|events| - 1]);
      ApplyIsValid(Run(events[..|events| - 1]), events[|events| - 1]);
    }
  }
}
