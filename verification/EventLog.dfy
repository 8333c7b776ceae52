/**
  Sequence numbers of the event log under concurrent loggers.

  Each thread that logs an event goes through atomic steps: a bound logger takes or peeks at
  its own counter, the run logger takes or peeks at the run counter, and the file sink
  appends the record or drops it. Any interleaving of the steps of any number of threads is
  a run. A ticket is a durable sequence number handed out by one of the counters.
 */
module EventLog {
  import opened Wrappers

  type Thread = nat
  type Logger = nat

  datatype Record = Record(
    thread: Thread, logger: Option<Logger>, subjectSeq: nat, seq_: nat, durable: bool)

  /** Where a thread is between two events. */
  datatype Stage =
    | Idle
    | Numbered(logger: Option<Logger>, subjectSeq: nat, durable: bool)
    | Stamped(record: Record)

  datatype State = State(
    runSeq: nat, subjectSeq: map<Logger, nat>, stages: map<Thread, Stage>, file: seq<Record>)

  datatype Step =
    | Begin(thread: Thread, logger: Option<Logger>, durable: bool)
    | Stamp(thread: Thread)
    | Write(thread: Thread)

  datatype Channel = Run | Subject(logger: Logger)

  const INITIAL := State(0, map[], map[], [])

  function StageOf(s: State, t: Thread): Stage {
    if t in s.stages then s.stages[t] else Idle
  }

  function Counter(s: State, c: Channel): nat {
    match c
    case Run => s.runSeq
    case Subject(logger) => if logger in s.subjectSeq then s.subjectSeq[logger] else 0
  }

  predicate Enabled(s: State, step: Step) {
    match step
    case Begin(t, _, _) => StageOf(s, t).Idle?
    case Stamp(t) => StageOf(s, t).Numbered?
    case Write(t) => StageOf(s, t).Stamped?
  }

  function Next(s: State, step: Step): State
    requires Enabled(s, step)
  {
    match step
    case Begin(t, None, durable) =>
      s.(stages := s.stages[t := Numbered(None, 0, durable)])
    case Begin(t, Some(logger), durable) =>
      var n := Counter(s, Subject(logger));
      var numbered := s.(stages := s.stages[t := Numbered(Some(logger), n, durable)]);
      if durable then numbered.(subjectSeq := s.subjectSeq[logger := n + 1]) else numbered
    case Stamp(t) =>
      var stage := StageOf(s, t);
      var record := Record(t, stage.logger, stage.subjectSeq, s.runSeq, stage.durable);
      var stamped := s.(stages := s.stages[t := Stamped(record)]);
      if stage.durable then stamped.(runSeq := s.runSeq + 1) else stamped
    case Write(t) =>
      var record := StageOf(s, t).record;
      var done := s.(stages := s.stages[t := Idle]);
      if record.durable then done.(file := s.file + [record]) else done
  }

  /** The state after a run, or `None` when a step was not enabled. */
  function After(steps: seq<Step>): Option<State> {
    if steps == [] then
      Some(INITIAL)
    else
      var before :- After(steps[..|steps| - 1]);
      if Enabled(before, steps[|steps| - 1]) then Some(Next(before, steps[|steps| - 1])) else None
  }

  // ----- Tickets -----

  function RecordTicket(r: Record, c: Channel): Option<nat> {
    if !r.durable then None
    else if c.Run? then Some(r.seq_)
    else if r.logger == Some(c.logger) then Some(r.subjectSeq)
    else None
  }

  function Ticket(stage: Stage, c: Channel): Option<nat> {
    match stage
    case Idle => None
    case Numbered(logger, n, durable) => if durable && c.Subject? && logger == Some(c.logger) then Some(n) else None
    case Stamped(record) => RecordTicket(record, c)
  }

  predicate InFile(s: State, c: Channel, i: nat, n: nat) {
    i < |s.file| && RecordTicket(s.file[i], c) == Some(n)
  }

  predicate InFlight(s: State, c: Channel, t: Thread, n: nat) {
    Ticket(StageOf(s, t), c) == Some(n)
  }

  /** Every ticket is below the counter, and held in one place only. */
  ghost predicate Single(s: State, c: Channel) {
    && (forall i: nat, n: nat | InFile(s, c, i, n) :: n < Counter(s, c))
    && (forall t, n: nat | InFlight(s, c, t, n) :: n < Counter(s, c))
    && (forall i: nat, j: nat, n: nat | InFile(s, c, i, n) && InFile(s, c, j, n) :: i == j)
    && (forall t, u, n: nat | InFlight(s, c, t, n) && InFlight(s, c, u, n) :: t == u)
    && (forall i: nat, t, n: nat | InFile(s, c, i, n) :: !InFlight(s, c, t, n))
  }

  ghost predicate Held(s: State, c: Channel, n: nat) {
    (exists i :: InFile(s, c, i, n)) || (exists t :: InFlight(s, c, t, n))
  }

  /** No ticket below the counter is lost. */
  ghost predicate Complete(s: State, c: Channel) {
    forall n: nat | n < Counter(s, c) :: Held(s, c, n)
  }

  /** The thread a step belongs to. */
  function Actor(step: Step): Thread {
    step.thread
  }

  /** Whether the step hands out the next ticket of the channel. */
  predicate Takes(s: State, step: Step, c: Channel) {
    match step
    case Begin(_, logger, durable) => durable && c.Subject? && logger == Some(c.logger)
    case Stamp(t) => c.Run? && StageOf(s, t).Numbered? && StageOf(s, t).durable
    case Write(_) => false
  }

  /** How a step moves tickets: at most a new one, and otherwise only from the thread to the file. */
  lemma StepMoves(s: State, step: Step, c: Channel)
    requires Enabled(s, step)
    ensures var w, t := Next(s, step), Actor(step);
            && Counter(w, c) == Counter(s, c) + (if Takes(s, step, c) then 1 else 0)
            && (forall u | u != t :: StageOf(w, u) == StageOf(s, u))
            && (Takes(s, step, c) ==> Ticket(StageOf(s, t), c).None? && Ticket(StageOf(w, t), c) == Some(Counter(s, c)))
            && (!Takes(s, step, c) && !step.Write? ==> Ticket(StageOf(w, t), c) == Ticket(StageOf(s, t), c))
            && (step.Write? ==> Ticket(StageOf(w, t), c).None?)
  {
  }

  lemma WriteMoves(s: State, step: Step, c: Channel)
    requires Enabled(s, step)
    ensures var w := Next(s, step);
            if step.Write? && StageOf(s, step.thread).record.durable then
              w.file == s.file + [StageOf(s, step.thread).record]
            else
              w.file == s.file && (step.Write? ==> Ticket(StageOf(s, step.thread), c).None?)
  {
  }

  lemma FileStep(s: State, step: Step, c: Channel, i: nat, n: nat)
    requires Enabled(s, step)
    ensures InFile(Next(s, step), c, i, n) <==>
              InFile(s, c, i, n) || (i == |s.file| && step.Write? && InFlight(s, c, Actor(step), n))
  {
    WriteMoves(s, step, c);
  }

  lemma FlightStep(s: State, step: Step, c: Channel, t: Thread, n: nat)
    requires Enabled(s, step)
    ensures InFlight(Next(s, step), c, t, n) <==>
              || (InFlight(s, c, t, n) && !(step.Write? && t == Actor(step)))
              || (t == Actor(step) && Takes(s, step, c) && n == Counter(s, c))
  {
    StepMoves(s, step, c);
  }

  lemma SingleStep(s: State, step: Step, c: Channel)
    requires Enabled(s, step) && Single(s, c)
    ensures Single(Next(s, step), c)
  {
    var w := Next(s, step);
    StepMoves(s, step, c);
    forall i, n
      ensures InFile(w, c, i, n) <==>
                InFile(s, c, i, n) || (i == |s.file| && step.Write? && InFlight(s, c, Actor(step), n))
    {
      FileStep(s, step, c, i, n);
    }
    forall t, n
      ensures InFlight(w, c, t, n) <==>
                || (InFlight(s, c, t, n) && !(step.Write? && t == Actor(step)))
                || (t == Actor(step) && Takes(s, step, c) && n == Counter(s, c))
    {
      FlightStep(s, step, c, t, n);
    }
  }

  lemma CompleteStep(s: State, step: Step, c: Channel)
    requires Enabled(s, step) && Complete(s, c)
    ensures Complete(Next(s, step), c)
  {
    var w, t := Next(s, step), Actor(step);
    StepMoves(s, step, c);
    forall n: nat | n < Counter(w, c)
      ensures Held(w, c, n)
    {
      FlightStep(s, step, c, t, n);
      if n < Counter(s, c) {
        assert Held(s, c, n);
        if i :| InFile(s, c, i, n) {
          FileStep(s, step, c, i, n);
          assert InFile(w, c, i, n);
        } else {
          var u :| InFlight(s, c, u, n);
          FlightStep(s, step, c, u, n);
          FileStep(s, step, c, |s.file|, n);
          assert InFlight(w, c, u, n) || InFile(w, c, |s.file|, n);
        }
      } else {
        assert InFlight(w, c, t, n);
      }
    }
  }

  /** Over every interleaving, on every counter: no number twice, none lost. */
  lemma {:induction false} TicketsAreExact(steps: seq<Step>, c: Channel)
    requires After(steps).Some?
    ensures Single(After(steps).value, c) && Complete(After(steps).value, c)
  {
    if steps != [] {
      var front, last := steps[..|steps| - 1], steps[|steps| - 1];
      TicketsAreExact(front, c);
      SingleStep(After(front).value, last, c);
      CompleteStep(After(front).value, last, c);
    }
  }

  // ----- Order within a thread -----

  /** Of two records of one thread, the earlier line has the smaller ticket. */
  ghost predicate Ordered(s: State, c: Channel) {
    && (forall i: nat, j: nat, n: nat, m: nat | i < j && InFile(s, c, i, n) && InFile(s, c, j, m) ::
          s.file[i].thread == s.file[j].thread ==> n < m)
    && (forall i: nat, t, n: nat, m: nat | InFile(s, c, i, n) && InFlight(s, c, t, m) ::
          s.file[i].thread == t ==> n < m)
    && (forall t | StageOf(s, t).Stamped? :: StageOf(s, t).record.thread == t)
  }

  lemma OrderedStep(s: State, step: Step, c: Channel)
    requires Enabled(s, step) && Single(s, c) && Ordered(s, c)
    ensures Ordered(Next(s, step), c)
  {
    var w := Next(s, step);
    StepMoves(s, step, c);
    WriteMoves(s, step, c);
    forall i: nat, n: nat
      ensures InFile(w, c, i, n) <==>
                InFile(s, c, i, n) || (i == |s.file| && step.Write? && InFlight(s, c, Actor(step), n))
    {
      FileStep(s, step, c, i, n);
    }
    forall t, n: nat
      ensures InFlight(w, c, t, n) <==>
                || (InFlight(s, c, t, n) && !(step.Write? && t == Actor(step)))
                || (t == Actor(step) && Takes(s, step, c) && n == Counter(s, c))
    {
      FlightStep(s, step, c, t, n);
    }
  }

  lemma {:induction false} ThreadsWriteInOrder(steps: seq<Step>, c: Channel)
    requires After(steps).Some?
    ensures Ordered(After(steps).value, c)
  {
    if steps != [] {
      var front, last := steps[..|steps| - 1], steps[|steps| - 1];
      ThreadsWriteInOrder(front, c);
      TicketsAreExact(front, c);
      OrderedStep(After(front).value, last, c);
    }
  }

  // ----- Once all threads are done -----

  predicate Quiescent(s: State) {
    forall t | t in s.stages :: s.stages[t].Idle?
  }

  /** The durable events of a channel that were begun. */
  function DurableEvents(steps: seq<Step>, c: Channel): nat {
    if steps == [] then
      0
    else
      DurableEvents(steps[..|steps| - 1], c)
      + (match steps[|steps| - 1]
         case Begin(_, logger, durable) => if durable && (c.Run? || logger == Some(c.logger)) then 1 else 0
         case Stamp(_) => 0
         case Write(_) => 0)
  }

  predicate AwaitsStamp(stage: Stage) {
    stage.Numbered? && stage.durable
  }

  ghost function AwaitingStamp(stages: map<Thread, Stage>): set<Thread> {
    set t | t in stages && AwaitsStamp(stages[t])
  }

  ghost function Pending(s: State): set<Thread> {
    AwaitingStamp(s.stages)
  }

  lemma AwaitingUpdate(stages: map<Thread, Stage>, t: Thread, stage: Stage)
    ensures var before, after := AwaitingStamp(stages), AwaitingStamp(stages[t := stage]);
            && after == (if AwaitsStamp(stage) then before + {t} else before - {t})
            && (t in before <==> t in stages && AwaitsStamp(stages[t]))
  {
  }

  /** Durable events already counted by the run, or about to be. */
  lemma {:induction false} EventsAreCounted(steps: seq<Step>)
    requires After(steps).Some?
    ensures var s := After(steps).value; s.runSeq + |Pending(s)| == DurableEvents(steps, Run)
    ensures forall i | 0 <= i < |After(steps).value.file| :: After(steps).value.file[i].durable
  {
    if steps != [] {
      var front, last := steps[..|steps| - 1], steps[|steps| - 1];
      EventsAreCounted(front);
      PendingStep(After(front).value, last);
    }
  }

  lemma PendingStep(s: State, step: Step)
    requires Enabled(s, step)
    ensures var w := Next(s, step);
            w.runSeq + |Pending(w)| == s.runSeq + |Pending(s)| + (if step.Begin? && step.durable then 1 else 0)
  {
    var w, t := Next(s, step), step.thread;
    AwaitingUpdate(s.stages, t, StageOf(w, t));
    assert w.stages == s.stages[t := StageOf(w, t)];
  }

  /** A bound logger's counter counts its durable events. */
  lemma {:induction false} SubjectEventsAreCounted(steps: seq<Step>, logger: Logger)
    requires After(steps).Some?
    ensures Counter(After(steps).value, Subject(logger)) == DurableEvents(steps, Subject(logger))
  {
    if steps != [] {
      var front, last := steps[..|steps| - 1], steps[|steps| - 1];
      SubjectEventsAreCounted(front, logger);
      StepMoves(After(front).value, last, Subject(logger));
    }
  }

  ghost predicate OnceInFile(s: State, c: Channel, n: nat) {
    exists i: nat :: InFile(s, c, i, n) && forall j: nat | InFile(s, c, j, n) :: j == i
  }

  /**
    Once every thread is done, the numbers in the file on each channel are exactly those
    below the number of its durable events, each once: progress events used none.
   */
  lemma QuiescentLogIsGapFree(steps: seq<Step>, c: Channel, n: nat)
    requires After(steps).Some? && Quiescent(After(steps).value)
    ensures n < DurableEvents(steps, c) ==> OnceInFile(After(steps).value, c, n)
    ensures n >= DurableEvents(steps, c) ==> forall i: nat :: !InFile(After(steps).value, c, i, n)
  {
    var s := After(steps).value;
    TicketsAreExact(steps, c);
    match c {
      case Run =>
        EventsAreCounted(steps);
        assert Pending(s) == {};
      case Subject(logger) =>
        SubjectEventsAreCounted(steps, logger);
    }
    if n < Counter(s, c) {
      assert Held(s, c, n);
      assert forall t :: !InFlight(s, c, t, n);
      var i: nat :| InFile(s, c, i, n);
      assert forall j: nat | InFile(s, c, j, n) :: j == i;
    }
  }

  lemma {:induction false} DistinctBelow(numbers: seq<nat>, n: nat)
    requires forall i, j | 0 <= i < j < |numbers| :: numbers[i] != numbers[j]
    requires forall i | 0 <= i < |numbers| :: numbers[i] < n
    requires forall k: nat | k < n :: k in numbers
    ensures |numbers| == n
  {
    if n > 0 {
      assert n - 1 in numbers;
      var at :| 0 <= at < |numbers| && numbers[at] == n - 1;
      var left := numbers[..at] + numbers[at + 1..];
      forall k: nat | k < n - 1
        ensures k in left
      {
        assert k in numbers;
        var i :| 0 <= i < |numbers| && numbers[i] == k;
        assert left[if i < at then i else i - 1] == k;
      }
      DistinctBelow(left, n - 1);
    }
  }

  /** The file then has one line for each durable event, numbered 0 to n - 1 in some order. */
  lemma QuiescentFileIsComplete(steps: seq<Step>)
    requires After(steps).Some? && Quiescent(After(steps).value)
    ensures |After(steps).value.file| == DurableEvents(steps, Run)
  {
    var s, n := After(steps).value, DurableEvents(steps, Run);
    EventsAreCounted(steps);
    TicketsAreExact(steps, Run);
    var numbers := seq(|s.file|, i requires 0 <= i < |s.file| => s.file[i].seq_);
    forall i | 0 <= i < |numbers|
      ensures InFile(s, Run, i, numbers[i]) && numbers[i] < s.runSeq
    {
      assert InFile(s, Run, i, numbers[i]);
    }
    forall i, j | 0 <= i < j < |numbers|
      ensures numbers[i] != numbers[j]
    {
      assert InFile(s, Run, i, numbers[i]) && InFile(s, Run, j, numbers[j]);
    }
    assert Pending(s) == {};
    forall k: nat | k < n
      ensures k in numbers
    {
      QuiescentLogIsGapFree(steps, Run, k);
      var i: nat :| InFile(s, Run, i, k);
      assert numbers[i] == k;
    }
    DistinctBelow(numbers, n);
  }

  /** Lines of different threads may be out of order: the later number is written first. */
  lemma FileOrderExample()
    ensures var steps := [Begin(0, None, true), Begin(1, None, true), Stamp(0), Stamp(1), Write(1), Write(0)];
            && After(steps).Some? && Quiescent(After(steps).value)
            && |After(steps).value.file| == 2
            && After(steps).value.file[0].seq_ == 1 && After(steps).value.file[1].seq_ == 0
  {
    var steps := [Begin(0, None, true), Begin(1, None, true), Stamp(0), Stamp(1), Write(1), Write(0)];
    assert steps[..5][..4] == steps[..4] && steps[..4][..3] == steps[..3] && steps[..3][..2] == steps[..2];
    assert steps[..2][..1] == steps[..1] && steps[..1][..0] == [];
    assert After(steps[..1]) == Some(Next(INITIAL, steps[0]));
    assert After(steps[..2]) == Some(Next(After(steps[..1]).value, steps[1]));
    assert After(steps[..3]) == Some(Next(After(steps[..2]).value, steps[2]));
    assert After(steps[..4]) == Some(Next(After(steps[..3]).value, steps[3]));
    assert After(steps[..5]) == Some(Next(After(steps[..4]).value, steps[4]));
    assert After(steps) == Some(Next(After(steps[..5]).value, steps[5]));
  }
}
