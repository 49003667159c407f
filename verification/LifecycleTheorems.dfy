// What holds in every state the event loop can reach before stop(), for every interleaving
// of accepts, coroutines, completions and cleanup passes.
module LifecycleTheorems {
  import opened Bytes
  import opened Lifecycle
  import P = LifecycleProofs

  ghost predicate Runs(s: Loop, events: seq<Event>, end: Loop)
    decreases |events|
  {
    if events == [] then end == s
    else Enabled(s, events[0]) && Runs(Next(s, events[0]), events[1..], end)
  }

  lemma StartedInv(protocol: Protocol, listenFd: int)
    ensures Inv(Started(protocol, listenFd))
  {
  }

  lemma {:induction false} RunKeepsInv(s: Loop, events: seq<Event>, end: Loop)
    requires Inv(s) && Runs(s, events, end)
    ensures Inv(end)
    decreases |events|
  {
    hide Inv;
    if events != [] {
      P.NextKeepsInv(s, events[0]);
      RunKeepsInv(Next(s, events[0]), events[1..], end);
    }
  }

  ghost predicate Reachable(s: Loop) {
    exists protocol, listenFd, events :: Runs(Started(protocol, listenFd), events, s)
  }

  lemma AlwaysInv(s: Loop)
    requires Reachable(s)
    ensures Inv(s)
  {
    hide Inv;
    var protocol, listenFd, events :| Runs(Started(protocol, listenFd), events, s);
    StartedInv(protocol, listenFd);
    RunKeepsInv(Started(protocol, listenFd), events, s);
  }

  // ---- Resuming ----

  lemma AbortedOnce(r: R.Registry<nat>, k: nat, fd: int, err: int)
    requires R.Once(r) && k !in r.ops
    ensures R.Once(R.Next(R.Next(r, R.Event<nat>.Submit(k, fd)), R.Event<nat>.Abort(k, err)))
  {
    R.NextKeepsOnce(r, R.Event<nat>.Submit(k, fd));
    R.NextKeepsOnce(R.Next(r, R.Event<nat>.Submit(k, fd)), R.Event<nat>.Abort(k, err));
  }

  lemma StepKeepsOnce(s: Loop, e: Event)
    requires R.Once(s.reg) && Enabled(s, e)
    ensures R.Once(Next(s, e).reg)
  {
    hide R.Once, R.Next, Finish, TargetEnd, MayUse;
    match e
    case Cqe(k, res) => R.NextKeepsOnce(s.reg, R.Event<nat>.Cqe(k, res));
    case Submit(k, fd) => R.NextKeepsOnce(s.reg, R.Event<nat>.Submit(k, fd));
    case SubmitAborted(k, fd, err) => AbortedOnce(s.reg, k, fd, err);
    case Reap(fd) =>
      var c := s.conns[fd];
      R.NextKeepsOnce(s.reg, R.Event<nat>.CancelFd(c.clientFd));
      R.NextKeepsOnce(R.Next(s.reg, R.Event<nat>.CancelFd(c.clientFd)), R.Event<nat>.CancelFd(c.targetFd));
      R.NextKeepsOnce(s.reg, R.Event<nat>.CancelFd(c.targetFd));
    case _ =>
  }

  lemma {:induction false} RunKeepsOnce(s: Loop, events: seq<Event>, end: Loop)
    requires R.Once(s.reg) && Runs(s, events, end)
    ensures R.Once(end.reg)
    decreases |events|
  {
    hide R.Once, Next, Enabled;
    if events != [] {
      StepKeepsOnce(s, events[0]);
      RunKeepsOnce(Next(s, events[0]), events[1..], end);
    }
  }

  lemma AlwaysOnce(s: Loop)
    requires Reachable(s)
    ensures R.Once(s.reg)
  {
    var protocol, listenFd, events :| Runs(Started(protocol, listenFd), events, s);
    RunKeepsOnce(Started(protocol, listenFd), events, s);
  }

  /** A suspended task becomes active in a step exactly when the operation it waits for resumes
      its coroutine, which only the completion of that operation does: the task then runs and
      finds the completion's result. In any other step it goes on waiting. */
  lemma ResumedExactly(s: Loop, e: Event, w: Who, k: nat)
    requires Reachable(s) && Enabled(s, e) && w in s.tasks && s.tasks[w] == Waiting(k)
    ensures k in s.reg.ops && k in Next(s, e).reg.ops && w in Next(s, e).tasks
    ensures var o, p, task := s.reg.ops[k], Next(s, e).reg.ops[k], Next(s, e).tasks[w];
            && (task.Active? <==> p.resumes == o.resumes + 1)
            && (task.Active? <==> e.Cqe? && e.op == k)
            && (task.Active? ==> p.result == e.res && !p.armed && Next(s, e).running == [w])
            && (!task.Active? ==> task == Waiting(k) && p == o)
  {
    AlwaysInv(s);
    AlwaysOnce(s);
    assert Armed(s, k) && s.owner[k] == w;
    hide Flags, Ownership, Operations, Stack, R.Next, R.Once, Reachable, Next;
    match e
    case Cqe(j, res) => CompletionResumes(s, j, res, w, k);
    case Submit(_, _) => SubmitLeaves(s, e, w, k);
    case SubmitAborted(_, _, _) => SubmitLeaves(s, e, w, k);
    case Reap(fd) => ReapLeaves(s, fd, w);
    case _ => StepLeaves(s, e, w);
  }

  lemma SubmitLeaves(s: Loop, e: Event, w: Who, k: nat)
    requires Inv(s) && Enabled(s, e) && (e.Submit? || e.SubmitAborted?)
    requires w in s.tasks && s.tasks[w] == Waiting(k) && k in s.reg.ops
    ensures var n := Next(s, e);
            && k in n.reg.ops && n.reg.ops[k] == s.reg.ops[k] && w in n.tasks && n.tasks[w] == s.tasks[w]
  {
    hide Flags, Ownership, Operations, R.Next, MayUse;
    P.TopIsActive(s);
    hide Stack;
    OthersStay(s, e.op, e.fd, if e.SubmitAborted? then e.err else 0, k);
  }

  lemma ReapLeaves(s: Loop, fd: int, w: Who)
    requires Reachable(s) && Enabled(s, Reap(fd)) && w in s.tasks && s.tasks[w].Waiting?
    ensures Next(s, Reap(fd)).reg == s.reg
    ensures w in Next(s, Reap(fd)).tasks && Next(s, Reap(fd)).tasks[w] == s.tasks[w]
  {
    ReapIsSafe(s, fd);
    hide Reachable;
  }

  lemma StepLeaves(s: Loop, e: Event, w: Who)
    requires Inv(s) && Enabled(s, e) && w in s.tasks && s.tasks[w].Waiting?
    requires !e.Cqe? && !e.Submit? && !e.SubmitAborted? && !e.Reap?
    ensures var n := Next(s, e); n.reg == s.reg && w in n.tasks && n.tasks[w] == s.tasks[w]
  {
    P.TopIsActive(s);
    if e.Accepted? {
      NewIsNew(s, e.fd, w);
    } else if e.StartTarget? {
      TargetIsNew(s, w);
    }
    hide Flags, Ownership, Operations, Stack, Finish, TargetEnd;
  }

  lemma CompletionResumes(s: Loop, j: nat, res: int, w: Who, k: nat)
    requires Inv(s) && R.Once(s.reg) && Enabled(s, Cqe(j, res)) && w in s.tasks && s.tasks[w] == Waiting(k)
    ensures k in s.reg.ops
    ensures var n := Next(s, Cqe(j, res));
            && w in n.tasks && k in n.reg.ops
            && (j == k ==>
                  && n.tasks[w].Active? && n.running == [w] && !n.reg.ops[k].armed && n.reg.ops[k].result == res
                  && n.reg.ops[k].resumes == s.reg.ops[k].resumes + 1)
            && (j != k ==> n.tasks[w] == Waiting(k) && n.reg.ops[k] == s.reg.ops[k])
  {
    assert Armed(s, k) && s.owner[k] == w;
    assert Armed(s, j) ==> s.owner[j] in s.tasks && s.tasks[s.owner[j]] == Waiting(j);
    hide Flags, Ownership, Operations, Stack;
  }

  lemma OthersStay(s: Loop, j: nat, fd: int, err: int, k: nat)
    requires j !in s.reg.ops && k in s.reg.ops
    ensures var r := R.Next(s.reg, R.Event<nat>.Submit(j, fd));
            && k in r.ops && r.ops[k] == s.reg.ops[k] && j in r.ops
            && var a := R.Next(r, R.Event<nat>.Abort(j, err));
            k in a.ops && a.ops[k] == s.reg.ops[k]
  {
  }

  lemma NewIsNew(s: Loop, fd: int, w: Who)
    requires Inv(s) && fd >= 0 && fd !in s.open && w in s.tasks
    ensures w != Client(fd)
  {
    if w == Client(fd) {
      P.NewFdIsFresh(s, fd);
    }
  }

  lemma TargetIsNew(s: Loop, w: Who)
    requires Inv(s) && Enabled(s, StartTarget) && w in s.tasks
    ensures w != Target(Top(s).fd)
  {
    assert FlagsOk(s, Top(s).fd);
  }

  // ---- Reaping ----

  /** A connection that cleanup erases has ended its client task; its target task has ended or
      was never started; no operation is registered on either of its descriptors, so doClose
      cancels nothing; and no suspended or running task is left that belongs to it. */
  lemma ReapIsSafe(s: Loop, fd: int)
    requires Reachable(s) && Enabled(s, Reap(fd))
    ensures ClientEnded(s, fd) && (if s.conns[fd].targetStarted then TargetEnded(s, fd) else Target(fd) !in s.tasks)
    ensures forall k, x :: Owns(s.conns[fd], x) ==> !R.ArmedOn(s.reg, k, x)
    ensures forall x :: Owns(s.conns[fd], x) ==> x !in s.reg.byFd
    ensures Next(s, Reap(fd)).reg == s.reg
    ensures forall w :: w in s.tasks && !s.tasks[w].Done? ==> w.Acceptor? || w.fd != fd
  {
    AlwaysInv(s);
    P.ReapKeeps(s, fd);
    forall x | Owns(s.conns[fd], x)
      ensures x !in s.reg.byFd && forall k :: !R.ArmedOn(s.reg, k, x)
    {
      assert OwnsIn(s.conns, fd, x);
      P.NothingArmedOn(s, fd, x);
      UntrackedIsUnarmed(s, x);
    }
    hide Ownership, Operations, Stack;
    assert FlagsOk(s, fd);
    forall w | w in s.tasks && !s.tasks[w].Done?
      ensures w.Acceptor? || w.fd != fd
    {
      assert w != Client(fd) && w != Target(fd);
    }
  }

  lemma UntrackedIsUnarmed(s: Loop, x: int)
    requires Inv(s) && x !in s.reg.byFd
    ensures forall k :: !R.ArmedOn(s.reg, k, x)
  {
    hide Flags, Ownership, Stack;
    forall k
      ensures !R.ArmedOn(s.reg, k, x)
    {
      assert R.Tracked(s.reg, k, x) <==> R.ArmedOn(s.reg, k, x);
    }
  }

  // ---- The close protocol ----

  /** closed_ holds exactly when the client task has ended and the target task, if it was
      started, has ended too; the client task has finished once if it has ended and not at
      all before. */
  lemma ClosedExactlyWhenBothEnded(s: Loop, f: int)
    requires Reachable(s) && f in s.conns
    ensures s.conns[f].closed <==> ClientEnded(s, f) && (s.conns[f].targetStarted ==> TargetEnded(s, f))
    ensures s.conns[f].finishes == (if ClientEnded(s, f) then 1 else 0)
    ensures s.conns[f].targetStarted <==> Target(f) in s.tasks
  {
    AlwaysInv(s);
    assert FlagsOk(s, f);
  }

  /** Whichever task ends first has shut down the descriptor the other one reads, and that
      descriptor is still open. */
  lemma FirstToEndShutsTheOther(s: Loop, f: int)
    requires Reachable(s) && f in s.conns && s.conns[f].targetStarted && !s.conns[f].closed
    ensures ClientEnded(s, f) ==> s.conns[f].targetFd in s.shut && s.conns[f].targetFd in s.open
    ensures TargetEnded(s, f) ==> f in s.shut && f in s.open
  {
    AlwaysInv(s);
    assert FlagsOk(s, f);
  }

  /** closed_ is set by exactly two kinds of step: the client task finishing with no target
      task still going, and the target task ending after the client task has. The first of
      two tasks to end never sets it. */
  lemma SecondToEndCloses(s: Loop, e: Event, f: int)
    requires Reachable(s) && Enabled(s, e) && f in s.conns && !s.conns[f].closed
    requires f in Next(s, e).conns
    ensures Next(s, e).conns[f].closed <==>
              || (e.FinishClient? && Top(s) == Client(f) && (s.conns[f].targetStarted ==> TargetEnded(s, f)))
              || (e.EndTarget? && Top(s) == Target(f) && ClientEnded(s, f))
  {
    AlwaysInv(s);
    assert FlagsOk(s, f);
    hide Ownership, Operations, Stack, FlagsOk, Reachable;
    if e.FinishClient? {
      FinishCloses(s, f);
    } else if e.EndTarget? {
      EndCloses(s, f);
    }
  }

  lemma FinishCloses(s: Loop, f: int)
    requires Inv(s) && Enabled(s, FinishClient) && f in s.conns && !s.conns[f].closed
    ensures Next(s, FinishClient).conns[f].closed <==>
              Top(s) == Client(f) && (s.conns[f].targetStarted ==> TargetEnded(s, f))
  {
    hide Ownership, Operations, Stack;
    assert FlagsOk(s, f);
  }

  lemma EndCloses(s: Loop, f: int)
    requires Inv(s) && Enabled(s, EndTarget) && f in s.conns && !s.conns[f].closed
    ensures Next(s, EndTarget).conns[f].closed <==> Top(s) == Target(f) && ClientEnded(s, f)
  {
    hide Ownership, Operations, Stack;
    assert FlagsOk(s, f);
  }

  /** closed_ is only cleared by the connection going away. */
  lemma ClosedStaysClosed(s: Loop, e: Event, f: int)
    requires Reachable(s) && Enabled(s, e) && f in s.conns && s.conns[f].closed && f in Next(s, e).conns
    ensures Next(s, e).conns[f] == s.conns[f]
  {
    AlwaysInv(s);
    assert FlagsOk(s, f);
    P.ReapedIsIdle(s, f);
    hide Ownership, Operations, FlagsOk, Reachable;
    if s.running != [] {
      P.TopIsActive(s);
      assert Top(s) != Client(f) && Top(s) != Target(f);
    }
    if e.Accepted? {
      hide Stack;
      P.NewFdIsFresh(s, e.fd) by { assert Inv(s); }
    }
  }

  // ---- Descriptors ----

  /** Every open descriptor but the listening one belongs to exactly one connection, which has
      it as its client fd, its target fd or the socket being connected; every descriptor of a
      connection is open; none was closed twice or while closed, no live map entry was
      overwritten, and each descriptor opened is open or was closed. */
  lemma FdConservation(s: Loop)
    requires Reachable(s)
    ensures forall x :: x in s.open && x != s.listenFd ==> exists f :: OwnsIn(s.conns, f, x)
    ensures forall f, g, x :: OwnsIn(s.conns, f, x) && OwnsIn(s.conns, g, x) ==> f == g
    ensures forall f, x :: OwnsIn(s.conns, f, x) ==> x in s.open && x != s.listenFd
    ensures !s.fault && |s.open| + s.closes == s.opens
  {
    AlwaysInv(s);
  }

  /** Reaping closes the connection's descriptors and no other. */
  lemma ReapClosesItsOwn(s: Loop, fd: int)
    requires Reachable(s) && Enabled(s, Reap(fd))
    ensures forall x :: x in Next(s, Reap(fd)).open <==> x in s.open && !Owns(s.conns[fd], x)
    ensures Next(s, Reap(fd)).closes == s.closes + (if s.conns[fd].targetFd >= 0 then 2 else 1)
  {
    AlwaysInv(s);
    P.ReapedIsIdle(s, fd);
  }

  /** A descriptor that is armed belongs to a task that waits for exactly that operation: a
      completion always resumes a task of a live connection (or acceptLoop), never one that
      was erased. */
  lemma CompletionsFindTheirTask(s: Loop, k: nat)
    requires Reachable(s) && k in s.reg.ops && s.reg.ops[k].armed
    ensures k in s.owner && s.owner[k] in s.tasks && s.tasks[s.owner[k]] == Waiting(k)
    ensures s.owner[k].Acceptor? || (s.owner[k].fd in s.conns && Owns(s.conns[s.owner[k].fd], s.reg.ops[k].fd))
  {
    AlwaysInv(s);
    hide Flags, Ownership, Stack;
    assert Armed(s, k);
  }

  ghost predicate WaitsFor(s: Loop, w: Who, k: nat) {
    w in s.tasks && s.tasks[w] == Waiting(k)
  }

  /** Between completions no connection is stranded: a closed one is about to be reaped, and
      any other has a task suspended on an operation that is registered on a descriptor of
      that connection, so that its completion will be found. */
  lemma NothingIsStranded(s: Loop, f: int)
    requires Reachable(s) && f in s.conns && s.running == []
    ensures s.conns[f].closed ==> Enabled(s, Reap(f))
    ensures !s.conns[f].closed ==>
              exists w, k :: w in {Client(f), Target(f)} && WaitsFor(s, w, k) &&
                             k in s.reg.ops && R.ArmedOn(s.reg, k, s.reg.ops[k].fd) && Owns(s.conns[f], s.reg.ops[k].fd)
  {
    AlwaysInv(s);
    assert FlagsOk(s, f);
    if !s.conns[f].closed {
      var w := if ClientEnded(s, f) then Target(f) else Client(f);
      SuspendedIsArmed(s, f, w);
      assert WaitsFor(s, w, s.tasks[w].op);
    }
  }

  lemma SuspendedIsArmed(s: Loop, f: int, w: Who)
    requires Inv(s) && f in s.conns && s.running == [] && w in s.tasks && !s.tasks[w].Done? && !w.Acceptor? && w.fd == f
    ensures s.tasks[w].Waiting?
    ensures var k := s.tasks[w].op;
            k in s.reg.ops && R.ArmedOn(s.reg, k, s.reg.ops[k].fd) && Owns(s.conns[f], s.reg.ops[k].fd)
  {
    assert FlagsOk(s, f);
    assert !s.tasks[w].Active?;
    var k := s.tasks[w].op;
    assert Armed(s, k);
  }

  // ---- A whole life, so that none of this is empty ----

  lemma {:induction false} RunsThen(s: Loop, events: seq<Event>, mid: Loop, e: Event)
    requires Runs(s, events, mid) && Enabled(mid, e)
    ensures Runs(s, events + [e], Next(mid, e))
    decreases |events|
  {
    hide Enabled, Next;
    if events == [] {
      assert ([] + [e])[1..] == [];
    } else {
      RunsThen(Next(s, events[0]), events[1..], mid, e);
      assert (events + [e])[1..] == events[1..] + [e];
    }
  }

  lemma ReachableThen(s: Loop, e: Event)
    requires Reachable(s) && Enabled(s, e)
    ensures Reachable(Next(s, e))
  {
    hide Enabled, Next, Runs;
    var protocol, listenFd, events :| Runs(Started(protocol, listenFd), events, s);
    RunsThen(Started(protocol, listenFd), events, s, e);
  }

  const RELAYING := Conn(7, 8, false, false, true, false, Relaying, 0)

  const BOTH_RUNNING := Loop(
    Vless, 3, map[7 := RELAYING], {}, Some(7),
    map[Acceptor := Active, Client(7) := Active, Target(7) := Active], [Acceptor, Client(7), Target(7)],
    R.Registry(map[], map[]), map[], {3, 7, 8}, {}, 3, 0, false)

  const DIALING := Loop(
    Vless, 3, map[7 := Conn(7, -1, false, false, false, false, Dialing(8), 0)], {}, Some(7),
    map[Acceptor := Active, Client(7) := Active], [Acceptor, Client(7)],
    R.Registry(map[], map[]), map[], {3, 7, 8}, {}, 3, 0, false)

  lemma Dials()
    ensures Reachable(DIALING)
  {
    var s := Started(Vless, 3);
    assert Runs(s, [], s);
    hide Reachable;
    var s1 := Next(s, Accepted(7));
    ReachableThen(s, Accepted(7));
    ReachableThen(s1, Dial(8));
    var s2 := Next(s1, Dial(8));
    assert s2.running == DIALING.running && s2.open == DIALING.open && s2.conns == DIALING.conns;
    assert s2 == DIALING;
  }

  lemma Begins()
    ensures Reachable(BOTH_RUNNING)
  {
    Dials();
    hide Reachable;
    var s3 := Next(DIALING, DialOk);
    ReachableThen(DIALING, DialOk);
    ReachableThen(s3, StartTarget);
    var s4 := Next(s3, StartTarget);
    assert s4.running == BOTH_RUNNING.running && s4.conns == BOTH_RUNNING.conns;
    assert s4 == BOTH_RUNNING;
  }

  /** A connection is accepted on 7, connects 8 and starts its target coroutine, which
      suspends reading it; the client coroutine ends first and shuts 8 down; the target's read
      completes and it ends, the connection is closed and reaped, and the two descriptors are
      closed again. */
  lemma AConnectionLives() returns (end: Loop)
    ensures Reachable(end) && end.conns == map[] && end.open == {3} && end.opens == 3 && end.closes == 2
  {
    Begins();
    hide Reachable;
    var s := BOTH_RUNNING;
    var s1 := Next(s, Submit(0, 8));
    ReachableThen(s, Submit(0, 8));
    assert s1.running == [Acceptor, Client(7)];
    var s2 := Next(s1, FinishClient);
    ReachableThen(s1, FinishClient);
    assert s2.running == [Acceptor] && s2.shut == {8} && !s2.conns[7].closed;
    var s3 := Next(s2, Insert);
    ReachableThen(s2, Insert);
    var s4 := Next(s3, Submit(1, 3));
    ReachableThen(s3, Submit(1, 3));
    assert s4.running == [] && s4.conns == map[7 := RELAYING.(clientReadDone := true, finishes := 1)];
    end := Reaps(s4);
  }

  /** The rest of that life, from the completion of the target's read. */
  lemma Reaps(s: Loop) returns (end: Loop)
    requires Reachable(s) && s.running == [] && s.conns == map[7 := RELAYING.(clientReadDone := true, finishes := 1)]
    requires 0 in s.reg.ops && s.reg.ops[0].armed && 0 in s.owner && s.owner[0] == Target(7)
    requires s.mapped == {7} && s.open == {3, 7, 8} && s.opens == 3 && s.closes == 0
    ensures Reachable(end) && end.conns == map[] && end.open == {3} && end.opens == 3 && end.closes == 2
  {
    hide Reachable;
    var s1 := Next(s, Cqe(0, 0));
    ReachableThen(s, Cqe(0, 0));
    assert s1.running == [Target(7)];
    var s2 := Next(s1, EndTarget);
    ReachableThen(s1, EndTarget);
    assert s2.running == [] && s2.conns[7].closed;
    end := Next(s2, Reap(7));
    ReachableThen(s2, Reap(7));
  }
}
