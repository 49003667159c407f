// The asynchronous logger: producers, one worker and shutdown over a bounded queue.
// Every critical section is one step; the worker's writes are steps outside the lock.
module Logger {
  import opened Bytes

  const MAX_QUEUE := 100000
  const BATCH_LIMIT := 1024

  /** Where the worker is: waiting for the lock, about to write a batch, about to collect the
      drop count, about to announce that many drops, or gone. */
  datatype Phase =
    | Waiting
    | Writing(batch: seq<string>)
    | Collecting
    | Announcing(count: nat)
    | Exited

  /** The shared state, the worker's place, and the history: the lines accepted into the
      queue, the lines written, the drops announced and the number of enqueue calls. */
  datatype State = State(
    queue: seq<string>,
    stop: bool,
    dropped: nat,
    worker: Phase,
    accepted: seq<string>,
    written: seq<string>,
    announced: nat,
    calls: nat)

  const STARTED := State([], false, 0, Waiting, [], [], 0, 0)

  datatype Event =
    | Enqueue(line: string)
    | Shutdown
    | Take
    | Write
    | Collect
    | Announce

  // ---- Steps ----

  function Enqueued(s: State, line: string): State {
    if |s.queue| >= MAX_QUEUE then
      s.(dropped := s.dropped + 1, calls := s.calls + 1)
    else
      s.(queue := s.queue + [line], accepted := s.accepted + [line], calls := s.calls + 1)
  }

  function BatchSize(queue: seq<string>): nat {
    if |queue| < BATCH_LIMIT then |queue| else BATCH_LIMIT
  }

  function Taken(s: State): State
    requires s.worker.Waiting? && (s.stop || s.queue != [])
  {
    if s.queue == [] then
      s.(worker := Exited)
    else
      s.(worker := Writing(s.queue[..BatchSize(s.queue)]), queue := s.queue[BatchSize(s.queue)..])
  }

  predicate Enabled(s: State, e: Event) {
    match e
    case Enqueue(_) => true
    case Shutdown => true
    case Take => s.worker.Waiting? && (s.stop || s.queue != [])
    case Write => s.worker.Writing?
    case Collect => s.worker.Collecting?
    case Announce => s.worker.Announcing?
  }

  function Next(s: State, e: Event): State
    requires Enabled(s, e)
  {
    match e
    case Enqueue(line) => Enqueued(s, line)
    case Shutdown => s.(stop := true)
    case Take => Taken(s)
    case Write => s.(written := s.written + s.worker.batch, worker := Collecting)
    case Collect => s.(dropped := 0, worker := Announcing(s.dropped))
    case Announce => s.(announced := s.announced + s.worker.count, worker := Waiting)
  }

  // ---- Invariant ----

  function InHand(s: State): seq<string> {
    if s.worker.Writing? then s.worker.batch else []
  }

  function Pending(s: State): nat {
    if s.worker.Announcing? then s.worker.count else 0
  }

  predicate Conserved(s: State) {
    && |s.queue| <= MAX_QUEUE
    && s.accepted == s.written + InHand(s) + s.queue
    && |s.accepted| + s.dropped + Pending(s) + s.announced == s.calls
    // a drop happens only on a full queue, and only the worker empties the queue
    && ((s.worker.Waiting? || s.worker.Announcing?) && s.dropped > 0 ==> s.queue != [])
  }

  lemma NextKeepsConserved(s: State, e: Event)
    requires Conserved(s) && Enabled(s, e)
    ensures Conserved(Next(s, e))
  {
    var next := Next(s, e);
    if e.Take? && s.queue != [] {
      assert s.queue[..BatchSize(s.queue)] + s.queue[BatchSize(s.queue)..] == s.queue;
      assert s.written + [] + s.queue == s.written + next.worker.batch + next.queue;
    } else if e.Enqueue? && |s.queue| < MAX_QUEUE {
      assert s.accepted + [e.line] == s.written + InHand(s) + (s.queue + [e.line]);
    }
  }

  // ---- Runs ----

  ghost predicate Run(events: seq<Event>, s: State)
    decreases |events|
  {
    if events == [] then s == STARTED
    else
      var last := |events| - 1;
      exists before :: Run(events[..last], before) && Enabled(before, events[last]) && s == Next(before, events[last])
  }

  /** In every interleaving: the queue is bounded, the lines written, in hand and queued are
      the accepted lines in order, and every call was accepted or dropped. */
  lemma {:induction false} AlwaysConserved(events: seq<Event>, s: State)
    requires Run(events, s)
    ensures Conserved(s)
    decreases |events|
  {
    if events != [] {
      var last := |events| - 1;
      var before :| Run(events[..last], before) && Enabled(before, events[last]) && s == Next(before, events[last]);
      AlwaysConserved(events[..last], before);
      NextKeepsConserved(before, events[last]);
    }
  }

  /** At the moment the worker exits, nothing is queued, every accepted line has been written
      in order, and every drop has been announced. */
  lemma ExitLosesNothing(events: seq<Event>, s: State)
    requires Run(events, s) && Enabled(s, Take) && Next(s, Take).worker.Exited?
    ensures var end := Next(s, Take);
            && end.queue == [] && end.dropped == 0
            && end.written == end.accepted
            && |end.accepted| + end.announced == end.calls
  {
    AlwaysConserved(events, s);
    assert s.written + [] + [] == s.written;
  }

  // ---- After the exit ----

  ghost predicate RunFrom(s: State, events: seq<Event>, end: State)
    decreases |events|
  {
    if events == [] then end == s
    else Enabled(s, events[0]) && RunFrom(Next(s, events[0]), events[1..], end)
  }

  /** The lines a run tries to log. */
  function Lines(events: seq<Event>): seq<string>
    decreases |events|
  {
    if events == [] then []
    else (if events[0].Enqueue? then [events[0].line] else []) + Lines(events[1..])
  }

  /** Those of them that still fit behind a queue. */
  function Fitting(queue: seq<string>, lines: seq<string>): seq<string> {
    if |queue| + |lines| <= MAX_QUEUE then lines
    else if |queue| >= MAX_QUEUE then []
    else lines[..MAX_QUEUE - |queue|]
  }

  /** enqueue does not look at `stop`: whatever happens after the worker has gone, lines are
      accepted until the queue is full and counted as dropped from then on, nothing more is
      written, and no drop is announced any more. */
  lemma {:induction false} NothingWrittenAfterExit(s: State, events: seq<Event>, end: State)
    requires s.worker.Exited? && RunFrom(s, events, end)
    ensures end.worker.Exited? && end.written == s.written && end.announced == s.announced
    ensures var late := Fitting(s.queue, Lines(events));
            && end.accepted == s.accepted + late && end.queue == s.queue + late
            && end.dropped == s.dropped + (|Lines(events)| - |late|)
    decreases |events|
  {
    if events == [] {
      assert s.accepted + [] == s.accepted && s.queue + [] == s.queue;
    } else {
      hide Fitting;
      var lines := Lines(events[1..]);
      NothingWrittenAfterExit(Next(s, events[0]), events[1..], end);
      if events[0].Enqueue? {
        LateStep(s, events[0].line, lines);
        hide Enqueued;
      } else {
        assert Lines(events) == lines;
      }
    }
  }

  lemma LateStep(s: State, line: string, lines: seq<string>)
    ensures var late, next := Fitting(s.queue, [line] + lines), Enqueued(s, line);
            var later := Fitting(next.queue, lines);
            && next.accepted + later == s.accepted + late && next.queue + later == s.queue + late
            && next.dropped + (|lines| - |later|) == s.dropped + (|[line] + lines| - |late|)
            && next == s.(accepted := next.accepted, queue := next.queue, dropped := next.dropped, calls := next.calls)
  {
    FittingStep(s.queue, line, lines);
    if |s.queue| < MAX_QUEUE {
      hide Fitting;
      var later := Fitting(s.queue + [line], lines);
      assert s.accepted + ([line] + later) == s.accepted + [line] + later;
      assert s.queue + ([line] + later) == s.queue + [line] + later;
    }
  }

  lemma FittingStep(queue: seq<string>, line: string, lines: seq<string>)
    ensures Fitting(queue, [line] + lines) ==
            if |queue| >= MAX_QUEUE then [] else [line] + Fitting(queue + [line], lines)
  {
    assert |queue| < MAX_QUEUE && |queue| + 1 + |lines| > MAX_QUEUE ==>
        ([line] + lines)[..MAX_QUEUE - |queue|] == [line] + lines[..MAX_QUEUE - |queue| - 1];
  }

  /** In every state after the exit what was accepted and is still queued is lost, and nothing
      is lost exactly when nothing is queued. */
  lemma LostExactly(events: seq<Event>, s: State)
    requires Run(events, s) && s.worker.Exited?
    ensures s.accepted == s.written + s.queue
    ensures s.written == s.accepted <==> s.queue == []
    ensures |s.written| + |s.queue| + s.dropped + s.announced == s.calls
  {
    AlwaysConserved(events, s);
    assert s.written + [] == s.written;
  }

  /** From the exit on: every accepted line has been written exactly when none was logged
      since. */
  lemma LateLinesAreLost(events: seq<Event>, s: State, more: seq<Event>, end: State)
    requires Run(events, s) && Enabled(s, Take) && Next(s, Take).worker.Exited?
    requires RunFrom(Next(s, Take), more, end)
    ensures end.written == end.accepted <==> Lines(more) == []
    ensures end.queue == Fitting([], Lines(more))
  {
    ExitLosesNothing(events, s);
    var exited := Next(s, Take);
    NothingWrittenAfterExit(exited, more, end);
    var late := Fitting([], Lines(more));
    assert [] + late == late;
    assert |end.accepted| == |exited.accepted| + |late|;
  }

  /** A line logged behind the exit of a worker that had nothing to do is lost. */
  lemma ALateLineIsLost()
    ensures var s := STARTED.(stop := true);
            var end := Enqueued(Next(s, Take), "x");
            && Run([Shutdown], s) && Next(s, Take).worker.Exited? && RunFrom(Next(s, Take), [Enqueue("x")], end)
            && end.accepted == ["x"] && end.written == []
  {
    assert [Shutdown][..0] == [] && Run([], STARTED);
    assert [Enqueue("x")][1..] == [];
  }

  // ---- The logger object ----

  class Impl {
    var queue: seq<string>
    var stop: bool
    var dropped: nat
    // the worker's own batch, and the text it has handed to write()
    var batch: seq<string>
    var text: string
    ghost var worker: Phase
    ghost var accepted: seq<string>
    ghost var written: seq<string>
    ghost var announced: nat
    ghost var calls: nat

    ghost function View(): State
      reads this
    {
      State(queue, stop, dropped, worker, accepted, written, announced, calls)
    }

    ghost predicate Valid()
      reads this
    {
      && Conserved(View())
      && (worker.Writing? ==> batch == worker.batch)
      && text == Flatten(written)
    }

    constructor ()
      ensures Valid() && View() == STARTED && text == ""
    {
      queue, stop, dropped, batch, text := [], false, 0, [], "";
      worker, accepted, written, announced, calls := Waiting, [], [], 0, 0;
    }

    method EnqueueLine(full: string)
      requires Valid()
      modifies this
      ensures Valid() && View() == Next(old(View()), Enqueue(full))
      ensures |old(queue)| < 100000 ==> queue == old(queue) + [full] && dropped == old(dropped)
      ensures |old(queue)| == 100000 ==> queue == old(queue) && dropped == old(dropped) + 1
    {
      ghost var s := View();
      NextKeepsConserved(s, Enqueue(full));
      calls := calls + 1;
      if |queue| >= MAX_QUEUE {
        dropped := dropped + 1;
        return;
      }
      queue := queue + [full];
      accepted := accepted + [full];
    }

    method RequestStop()
      requires Valid()
      modifies this
      ensures Valid() && View() == Next(old(View()), Shutdown)
    {
      NextKeepsConserved(View(), Shutdown);
      if stop {
        return;
      }
      stop := true;
    }

    /** One pass of workerLoop's critical section; false when the worker leaves the loop. */
    method TakeBatch() returns (more: bool)
      requires Valid() && Enabled(View(), Take)
      modifies this
      ensures Valid() && View() == Next(old(View()), Take)
      ensures more <==> old(queue) != []
      ensures more ==>
                && |batch| == (if |old(queue)| < 1024 then |old(queue)| else 1024)
                && batch + queue == old(queue) && worker == Writing(batch)
    {
      hide Flatten;
      ghost var s := View();
      NextKeepsConserved(s, Take);
      if |queue| == 0 {
        worker := Exited;
        return false;
      }
      var take := if |queue| < BATCH_LIMIT then |queue| else BATCH_LIMIT;
      batch := [];
      var i := 0;
      while i < take
        invariant 0 <= i <= take && i <= |s.queue|
        invariant batch == s.queue[..i] && queue == s.queue[i..]
        invariant View() == s.(queue := queue) && text == old(text)
      {
        batch := batch + [queue[0]];
        queue := queue[1..];
        i := i + 1;
      }
      worker := Writing(batch);
      return true;
    }

    /** Outside the lock: the whole batch joined into one write. */
    method WriteBatch()
      requires Valid() && worker.Writing?
      modifies this
      ensures Valid() && View() == Next(old(View()), Write)
    {
      hide Flatten;
      ghost var s := View();
      NextKeepsConserved(s, Write);
      var out := "";
      var i := 0;
      FlattenNothing();
      while i < |batch|
        invariant 0 <= i <= |batch| && out == Flatten(batch[..i])
        invariant View() == s && batch == s.worker.batch && text == old(text)
      {
        FlattenSnoc(batch[..i], batch[i]);
        assert batch[..i + 1] == batch[..i] + [batch[i]];
        out := out + batch[i];
        i := i + 1;
      }
      assert batch[..i] == batch;
      FlattenConcat(written, batch);
      text := text + out;
      written := written + batch;
      worker := Collecting;
    }

    method CollectDropped() returns (count: nat)
      requires Valid() && worker.Collecting?
      modifies this
      ensures Valid() && View() == Next(old(View()), Collect) && count == old(dropped)
    {
      NextKeepsConserved(View(), Collect);
      count := dropped;
      dropped := 0;
      worker := Announcing(count);
    }

    method AnnounceDropped(count: nat)
      requires Valid() && worker == Announcing(count)
      modifies this
      ensures Valid() && View() == Next(old(View()), Announce)
    {
      NextKeepsConserved(View(), Announce);
      announced := announced + count;
      worker := Waiting;
    }

    /** workerLoop once shutdown has been requested and no producer is left: it writes out
        everything that was accepted, announces every drop, and stops. */
    method WorkerLoop()
      requires Valid() && worker.Waiting? && stop
      modifies this
      ensures Valid() && worker.Exited?
      ensures queue == [] && dropped == 0
      ensures accepted == old(accepted) && written == accepted && text == Flatten(accepted)
      ensures |accepted| + announced == calls == old(calls)
    {
      hide Flatten;
      while true
        invariant Valid() && worker.Waiting? && stop
        invariant accepted == old(accepted) && calls == old(calls)
        decreases |queue|
      {
        var more := TakeBatch();
        if !more {
          assert written + [] + [] == written;
          return;
        }
        WriteBatch();
        var count := CollectDropped();
        AnnounceDropped(count);
      }
    }
  }

  lemma FlattenNothing()
    ensures Flatten<char>([]) == []
  {
  }
}
