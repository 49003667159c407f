// The invariant of the event loop is kept by every step.
module LifecycleProofs {
  import opened Bytes
  import opened Lifecycle

  // ---- Frames: what has to be checked when one connection changes ----

  predicate SameEnds(s: Loop, next: Loop, f: int) {
    && (Client(f) in s.tasks <==> Client(f) in next.tasks)
    && (Target(f) in s.tasks <==> Target(f) in next.tasks)
    && (ClientEnded(s, f) <==> ClientEnded(next, f))
    && (TargetEnded(s, f) <==> TargetEnded(next, f))
  }

  lemma FlagsFrame(s: Loop, next: Loop, f: int)
    requires Flags(s)
    requires forall g :: g in next.conns && g != f ==>
               && g in s.conns && next.conns[g] == s.conns[g] && SameEnds(s, next, g)
               && (s.conns[g].targetFd >= 0 && s.conns[g].targetFd in s.shut ==> s.conns[g].targetFd in next.shut)
               && (g in s.shut ==> g in next.shut)
    requires f in next.conns ==> FlagsOk(next, f)
    requires forall w :: w in next.tasks && !w.Acceptor? ==> w.fd in next.conns
    requires Acceptor in next.tasks && !next.tasks[Acceptor].Done?
    ensures Flags(next)
  {
    forall g | g in next.conns
      ensures FlagsOk(next, g)
    {
      if g != f {
        assert FlagsOk(s, g);
      }
    }
  }

  lemma OwnershipFrame(s: Loop, next: Loop, f: int)
    requires Ownership(s) && next.listenFd == s.listenFd
    requires forall g, x :: g != f ==> (OwnsIn(next.conns, g, x) <==> OwnsIn(s.conns, g, x))
    requires forall x :: OwnsIn(next.conns, f, x) ==> OwnsIn(s.conns, f, x) || x !in s.open
    requires forall x :: x in next.open <==> (x in s.open && !OwnsIn(s.conns, f, x)) || OwnsIn(next.conns, f, x)
    requires forall g :: g in next.conns ==> Distinct(next.conns[g])
    requires next.shut <= next.open && |next.open| == next.opens - next.closes && !next.fault
    ensures Ownership(next)
  {
    hide OwnsIn, Distinct;
    forall x | x in next.open && x != next.listenFd
      ensures exists g :: OwnsIn(next.conns, g, x)
    {
      if !OwnsIn(next.conns, f, x) {
        var g :| OwnsIn(s.conns, g, x);
        assert g != f;
        assert OwnsIn(next.conns, g, x);
      }
    }
  }

  /** When operations, owners and suspended tasks are the same. */
  lemma OperationsFrame(s: Loop, next: Loop)
    requires Operations(s) && next.reg == s.reg && next.owner == s.owner && next.listenFd == s.listenFd
    requires forall w :: w in s.tasks && s.tasks[w].Waiting? ==> w in next.tasks && next.tasks[w] == s.tasks[w]
    requires forall w :: w in next.tasks && next.tasks[w].Waiting? ==> w in s.tasks && next.tasks[w] == s.tasks[w]
    requires forall w, x :: w in s.tasks && s.tasks[w].Waiting? && Touches(s, w, x) ==> Touches(next, w, x)
    ensures Operations(next)
  {
  }

  /** When no connection changes and no task starts or ends. */
  lemma FlagsSame(s: Loop, next: Loop)
    requires Flags(s) && next.conns == s.conns && next.shut == s.shut && next.tasks.Keys == s.tasks.Keys
    requires forall w :: w in s.tasks ==> (s.tasks[w].Done? <==> next.tasks[w].Done?)
    ensures Flags(next)
  {
    forall f | f in next.conns
      ensures FlagsOk(next, f)
    {
      assert FlagsOk(s, f);
    }
  }

  lemma OwnershipSame(s: Loop, next: Loop)
    requires Ownership(s) && next.listenFd == s.listenFd && next.conns == s.conns && next.open == s.open
    requires next.shut == s.shut && next.opens == s.opens && next.closes == s.closes && next.fault == s.fault
    ensures Ownership(next)
  {
  }

  lemma TouchesSame(s: Loop, next: Loop)
    requires s.conns == next.conns && s.listenFd == next.listenFd
    ensures forall w, x :: Touches(s, w, x) <==> Touches(next, w, x)
  {
  }

  lemma MayUseTouches(s: Loop, w: Who, fd: int)
    requires Flags(s) && MayUse(s, w, fd) && (w.Target? ==> w in s.tasks)
    ensures Touches(s, w, fd)
  {
    if !w.Acceptor? {
      assert FlagsOk(s, w.fd);
    }
  }

  /** The running task leaves the stack: it suspends or ends. */
  lemma PopKeepsStack(s: Loop, t: Task, next: Loop)
    requires Stack(s) && s.running != [] && !t.Active? && !(Top(s).Acceptor? && s.starting.Some?)
    requires next.running == Pop(s.running) && next.tasks == s.tasks[Top(s) := t]
    requires next.starting == s.starting && next.mapped == s.mapped && next.conns.Keys == s.conns.Keys
    ensures Stack(next)
  {
    hide Shape;
    PopShape(s.running, s.starting);
    assert forall f :: f in next.conns <==> f in s.conns;
  }

  lemma PopShape(running: seq<Who>, starting: Option<int>)
    requires Shape(running, starting) && running != []
    requires !(running[|running| - 1].Acceptor? && starting.Some?)
    ensures Shape(Pop(running), starting)
    ensures forall w :: w in running <==> w == running[|running| - 1] || w in Pop(running)
    ensures running[|running| - 1] !in Pop(running)
  {
    assert running == Pop(running) + [running[|running| - 1]];
  }

  // ---- Completions and submissions ----

  lemma SubmitKeeps(s: Loop, k: nat, fd: int)
    requires Inv(s) && Enabled(s, Submit(k, fd))
    ensures Inv(Next(s, Submit(k, fd)))
  {
    hide Flags, Ownership, Operations, Stack, MayUse;
    var next := Next(s, Submit(k, fd));
    TopIsActive(s);
    FlagsSame(s, next);
    OwnershipSame(s, next);
    SubmitKeepsOperations(s, k, fd);
    AcceptorUse(s, fd);
    PopKeepsStack(s, Waiting(k), next);
  }

  lemma TopIsActive(s: Loop)
    requires Stack(s) && s.running != []
    ensures Top(s) in s.tasks && s.tasks[Top(s)].Active?
  {
    assert Top(s) in s.running;
  }

  lemma AcceptorUse(s: Loop, fd: int)
    requires s.running != [] && MayUse(s, Top(s), fd)
    ensures Top(s).Acceptor? ==> s.starting.None?
  {
  }

  lemma SubmitKeepsOperations(s: Loop, k: nat, fd: int)
    requires Flags(s) && Operations(s) && Stack(s) && Enabled(s, Submit(k, fd))
    ensures Operations(Next(s, Submit(k, fd)))
  {
    hide Flags, R.Agrees, MayUse, Touches;
    var next := Next(s, Submit(k, fd));
    R.NextKeepsAgreement(s.reg, R.Event<nat>.Submit(k, fd));
    TopIsActive(s);
    MayUseTouches(s, Top(s), fd);
    TouchesSame(s, next);
  }

  lemma SubmitAbortedKeeps(s: Loop, k: nat, fd: int, err: int)
    requires Inv(s) && Enabled(s, SubmitAborted(k, fd, err))
    ensures Inv(Next(s, SubmitAborted(k, fd, err)))
  {
    hide Flags, Ownership, Stack, MayUse, R.Agrees, Touches;
    var next := Next(s, SubmitAborted(k, fd, err));
    R.NextKeepsAgreement(s.reg, R.Event<nat>.Submit(k, fd));
    R.NextKeepsAgreement(R.Next(s.reg, R.Event<nat>.Submit(k, fd)), R.Event<nat>.Abort(k, err));
    FlagsSame(s, next);
    OwnershipSame(s, next);
    TouchesSame(s, next);
    StackSame(s, next);
  }

  lemma StackSame(s: Loop, next: Loop)
    requires Stack(s) && next.running == s.running && next.tasks == s.tasks && next.starting == s.starting
    requires next.mapped == s.mapped && next.conns.Keys == s.conns.Keys
    ensures Stack(next)
  {
    assert forall f :: f in next.conns <==> f in s.conns;
  }

  lemma CqeKeeps(s: Loop, k: nat, res: int)
    requires Inv(s) && Enabled(s, Cqe(k, res))
    ensures Inv(Next(s, Cqe(k, res)))
  {
    hide Flags, Ownership, R.Agrees, Touches;
    var next := Next(s, Cqe(k, res));
    R.NextKeepsAgreement(s.reg, R.Event<nat>.Cqe(k, res));
    if Armed(s, k) {
      FlagsSame(s, next);
      OwnershipSame(s, next);
      TouchesSame(s, next);
    }
  }

  lemma InsertKeeps(s: Loop)
    requires Inv(s) && Enabled(s, Insert)
    ensures Inv(Next(s, Insert))
  {
    hide Flags, Ownership, Operations;
    var next := Next(s, Insert);
    FlagsSame(s, next);
    OwnershipSame(s, next);
    TouchesSame(s, next);
    OperationsFrame(s, next);
    assert s.running == [Acceptor];
  }

  lemma RejectedKeeps(s: Loop, fd: int)
    requires Inv(s) && Enabled(s, Rejected(fd))
    ensures Inv(Next(s, Rejected(fd)))
  {
    hide Flags, Operations, Stack;
    var next := Next(s, Rejected(fd));
    assert next.open == s.open && next.shut == s.shut;
    FlagsSame(s, next);
    TouchesSame(s, next);
    OperationsFrame(s, next);
    StackSame(s, next);
    OwnershipSame(s, next.(opens := s.opens, closes := s.closes));
  }

  // ---- Steps of one connection ----

  lemma AcceptedKeeps(s: Loop, fd: int)
    requires Inv(s) && Enabled(s, Accepted(fd))
    ensures Inv(Next(s, Accepted(fd)))
  {
    AcceptedFlags(s, fd);
    AcceptedOwnership(s, fd);
    AcceptedOperations(s, fd);
    AcceptedStack(s, fd);
    hide Flags, Ownership, Operations, Stack, Next, Enabled;
  }

  lemma AcceptedOperations(s: Loop, fd: int)
    requires Inv(s) && Enabled(s, Accepted(fd))
    ensures Operations(Next(s, Accepted(fd)))
  {
    NewFdIsFresh(s, fd);
    hide Flags, Ownership, Stack, Operations;
    OperationsFrame(s, Next(s, Accepted(fd)));
  }

  lemma AcceptedStack(s: Loop, fd: int)
    requires Inv(s) && Enabled(s, Accepted(fd))
    ensures Stack(Next(s, Accepted(fd)))
  {
    NewFdIsFresh(s, fd);
    hide Flags, Ownership, Operations;
    assert s.running == [Acceptor];
  }

  lemma NewFdIsFresh(s: Loop, fd: int)
    requires Flags(s) && Ownership(s) && fd !in s.open
    ensures fd !in s.conns && Client(fd) !in s.tasks && Target(fd) !in s.tasks
    ensures forall f :: !OwnsIn(s.conns, f, fd)
  {
    if fd in s.conns {
      assert FlagsOk(s, fd) && OwnsIn(s.conns, fd, fd);
    }
  }

  lemma AcceptedFlags(s: Loop, fd: int)
    requires Inv(s) && Enabled(s, Accepted(fd))
    ensures Flags(Next(s, Accepted(fd)))
  {
    hide Operations, Stack, FlagsOk;
    var next := Next(s, Accepted(fd));
    NewFdIsFresh(s, fd);
    assert FlagsOk(next, fd) by { NewConnFlags(next, fd); }
    FlagsFrame(s, next, fd);
  }

  lemma NewConnFlags(s: Loop, fd: int)
    requires fd >= 0 && fd in s.conns && s.conns[fd] == Conn(fd, -1, false, false, false, false, Setup, 0)
    requires Client(fd) in s.tasks && s.tasks[Client(fd)].Active? && Target(fd) !in s.tasks
    ensures FlagsOk(s, fd)
  {
  }

  lemma AcceptedOwnership(s: Loop, fd: int)
    requires Inv(s) && Enabled(s, Accepted(fd))
    ensures Ownership(Next(s, Accepted(fd)))
  {
    hide Flags, Operations, Stack;
    var next := Next(s, Accepted(fd));
    NewFdIsFresh(s, fd);
    OwnershipFrame(s, next, fd);
  }

  /** The client task executing on top of the stack, and what that excludes. */
  lemma ClientRuns(s: Loop) returns (f: int)
    requires Inv(s) && ClientOnTop(s)
    ensures f == Top(s).fd && FlagsOk(s, f)
    ensures s.tasks[Client(f)].Active? && Client(f) in s.tasks
    ensures s.conns[f].stage.Relaying? ==> Target(f) in s.tasks
    ensures Target(f) !in s.running
  {
    hide Ownership, Operations;
    f := Top(s).fd;
    assert Top(s) in s.running;
  }

  /** The descriptors of the connection change, but only those no operation is armed on. */
  lemma OperationsOfOne(s: Loop, next: Loop, f: int)
    requires Operations(s) && next.reg == s.reg && next.owner == s.owner && next.listenFd == s.listenFd
    requires forall w :: w in s.tasks && s.tasks[w].Waiting? ==> w in next.tasks && next.tasks[w] == s.tasks[w]
    requires forall w :: w in next.tasks && next.tasks[w].Waiting? ==> w in s.tasks && next.tasks[w] == s.tasks[w]
    requires forall g :: g in s.conns && g != f ==> g in next.conns && next.conns[g] == s.conns[g]
    requires (Client(f) in s.tasks && s.tasks[Client(f)].Waiting?) ||
             (Target(f) in s.tasks && s.tasks[Target(f)].Waiting?) ==>
               f in s.conns && f in next.conns && forall x :: Owns(s.conns[f], x) ==> Owns(next.conns[f], x)
    ensures Operations(next)
  {
    forall w, x | w in s.tasks && s.tasks[w].Waiting? && Touches(s, w, x)
      ensures Touches(next, w, x)
    {
      assert w.Acceptor? || w.fd != f || w == Client(f) || w == Target(f);
    }
    hide Owns;
    OperationsFrame(s, next);
  }

  lemma DialKeeps(s: Loop, fd: int)
    requires Inv(s) && Enabled(s, Dial(fd))
    ensures Inv(Next(s, Dial(fd)))
  {
    hide Ownership, Operations, Stack, Flags, FlagsOk;
    var next := Next(s, Dial(fd));
    var f := ClientRuns(s);
    DialFlags(s, fd);
    DialOwnership(s, fd);
    FlagsStage(s, f);
    OperationsOfOne(s, next, f);
    StackSame(s, next);
  }

  /** Before the target task there is no target fd and no target task. */
  lemma FlagsStage(s: Loop, f: int)
    requires f in s.conns && FlagsOk(s, f)
    ensures s.conns[f].clientFd == f
    ensures !s.conns[f].stage.Relaying? ==>
              Target(f) !in s.tasks && !s.conns[f].targetStarted && !s.conns[f].targetReadDone
    ensures s.conns[f].stage.Ready? || s.conns[f].stage.Relaying? <==> s.conns[f].targetFd >= 0
  {
  }

  lemma DialFlags(s: Loop, fd: int)
    requires Inv(s) && Enabled(s, Dial(fd))
    ensures Flags(Next(s, Dial(fd)))
  {
    hide Ownership, Operations, Stack;
    var next := Next(s, Dial(fd));
    var f := ClientRuns(s);
    FlagsFrame(s, next, f) by {
      assert FlagsOk(next, f);
      hide FlagsOk;
    }
  }

  lemma DialOwnership(s: Loop, fd: int)
    requires Inv(s) && Enabled(s, Dial(fd))
    ensures Ownership(Next(s, Dial(fd)))
  {
    var next := Next(s, Dial(fd));
    var f := ClientRuns(s);
    hide Flags, Operations, Stack;
    NewFdIsFresh(s, fd);
    assert forall x :: OwnsIn(next.conns, f, x) <==> OwnsIn(s.conns, f, x) || x == fd;
    assert OwnsIn(s.conns, f, f);
    OwnershipFrame(s, next, f);
  }

  lemma DialOkKeeps(s: Loop)
    requires Inv(s) && Enabled(s, DialOk)
    ensures Inv(Next(s, DialOk))
  {
    hide Ownership, Operations, Stack, Flags, FlagsOk;
    var next := Next(s, DialOk);
    var f := ClientRuns(s);
    DialOkFlags(s);
    DialOkOwnership(s);
    FlagsStage(s, f);
    OperationsOfOne(s, next, f);
    StackSame(s, next);
  }

  /** The descriptor being connected is open and is not the client's. */
  lemma DialedFd(s: Loop, f: int)
    requires Ownership(s) && Flags(s) && f in s.conns && s.conns[f].stage.Dialing?
    ensures var l := s.conns[f].stage.fd;
            && l in s.open && l != f && l != s.listenFd
            && OwnsIn(s.conns, f, l) && s.conns[f].targetFd == -1 && s.conns[f].clientFd == f
            && forall g :: g in s.conns && g != f ==> l != g && l != s.conns[g].targetFd
  {
    var l := s.conns[f].stage.fd;
    assert FlagsOk(s, f) && OwnsIn(s.conns, f, l) && Distinct(s.conns[f]);
    forall g | g in s.conns && g != f
      ensures l != g && l != s.conns[g].targetFd
    {
      assert FlagsOk(s, g) && OwnsIn(s.conns, g, g);
      if s.conns[g].targetFd >= 0 {
        assert OwnsIn(s.conns, g, s.conns[g].targetFd);
      } else {
        assert s.conns[g].targetFd == -1;
      }
    }
  }

  lemma DialOkFlags(s: Loop)
    requires Inv(s) && Enabled(s, DialOk)
    ensures Flags(Next(s, DialOk))
  {
    hide Ownership, Operations, Stack;
    var next := Next(s, DialOk);
    var f := ClientRuns(s);
    FlagsFrame(s, next, f) by {
      assert FlagsOk(next, f);
      hide FlagsOk;
    }
  }

  lemma DialOkOwnership(s: Loop)
    requires Inv(s) && Enabled(s, DialOk)
    ensures Ownership(Next(s, DialOk))
  {
    var next := Next(s, DialOk);
    var f := ClientRuns(s);
    DialedFd(s, f);
    hide Flags, Operations, Stack;
    assert forall x :: OwnsIn(next.conns, f, x) <==> OwnsIn(s.conns, f, x);
    OwnershipFrame(s, next, f);
  }

  lemma DialFailedKeeps(s: Loop)
    requires Inv(s) && Enabled(s, DialFailed)
    ensures Inv(Next(s, DialFailed))
  {
    hide Ownership, Operations, Stack, Flags, FlagsOk;
    var next := Next(s, DialFailed);
    var f := ClientRuns(s);
    DialFailedFlags(s);
    DialFailedOwnership(s);
    FlagsStage(s, f);
    OperationsOfOne(s, next, f);
    StackSame(s, next);
  }

  lemma DialFailedFlags(s: Loop)
    requires Inv(s) && Enabled(s, DialFailed)
    ensures Flags(Next(s, DialFailed))
  {
    var next := Next(s, DialFailed);
    var f := ClientRuns(s);
    DialedFd(s, f);
    hide Ownership, Operations, Stack;
    FlagsFrame(s, next, f) by {
      assert FlagsOk(next, f);
      hide FlagsOk;
    }
  }

  lemma DialFailedOwnership(s: Loop)
    requires Inv(s) && Enabled(s, DialFailed)
    ensures Ownership(Next(s, DialFailed))
  {
    var next := Next(s, DialFailed);
    var f := ClientRuns(s);
    DialedFd(s, f);
    hide Flags, Operations, Stack;
    assert forall x :: OwnsIn(next.conns, f, x) <==> OwnsIn(s.conns, f, x) && x != s.conns[f].stage.fd;
    OwnershipFrame(s, next, f);
  }

  lemma StartTargetKeeps(s: Loop)
    requires Inv(s) && Enabled(s, StartTarget)
    ensures Inv(Next(s, StartTarget))
  {
    hide Ownership, Operations, Flags, FlagsOk;
    var next := Next(s, StartTarget);
    var f := ClientRuns(s);
    FlagsStage(s, f);
    StartTargetFlags(s);
    TargetFdOpen(s, f);
    SameOwners(s, next, f);
    OperationsOfOne(s, next, f);
    PushKeepsStack(s, next, f);
  }

  lemma StartTargetFlags(s: Loop)
    requires Inv(s) && Enabled(s, StartTarget)
    ensures Flags(Next(s, StartTarget))
  {
    hide Ownership, Operations, Stack;
    var next := Next(s, StartTarget);
    var f := ClientRuns(s);
    FlagsFrame(s, next, f) by {
      assert FlagsOk(next, f);
      hide FlagsOk;
    }
  }

  /** Ownership when one connection changes in nothing that it owns. */
  lemma SameOwners(s: Loop, next: Loop, f: int)
    requires Ownership(s) && f in s.conns && f in next.conns && next.conns == s.conns[f := next.conns[f]]
    requires next.conns[f].clientFd == s.conns[f].clientFd && next.conns[f].targetFd == s.conns[f].targetFd
    requires !s.conns[f].stage.Dialing? && !next.conns[f].stage.Dialing?
    requires next.open == s.open && next.opens == s.opens && next.closes == s.closes && next.fault == s.fault
    requires next.listenFd == s.listenFd && next.shut <= next.open
    ensures Ownership(next)
  {
    assert forall x :: OwnsIn(next.conns, f, x) <==> OwnsIn(s.conns, f, x);
    assert Distinct(s.conns[f]);
    OwnershipFrame(s, next, f);
  }

  lemma PushKeepsStack(s: Loop, next: Loop, f: int)
    requires Stack(s) && ClientOnTop(s) && Top(s).fd == f && Target(f) !in s.tasks
    requires next.running == s.running + [Target(f)] && next.tasks == s.tasks[Target(f) := Active]
    requires next.starting == s.starting && next.mapped == s.mapped && next.conns.Keys == s.conns.Keys
    ensures Stack(next)
  {
    hide Shape;
    PushShape(s.running, s.starting, f);
    assert forall g :: g in next.conns <==> g in s.conns;
  }

  lemma PushShape(running: seq<Who>, starting: Option<int>, f: int)
    requires Shape(running, starting) && running != [] && running[|running| - 1] == Client(f)
    ensures Shape(running + [Target(f)], starting)
  {
  }

  // ---- The ends of the two tasks ----

  lemma FinishClientKeeps(s: Loop)
    requires Inv(s) && Enabled(s, FinishClient)
    ensures Inv(Next(s, FinishClient))
  {
    hide Ownership, Operations, Flags, Stack, FlagsOk;
    var next := Next(s, FinishClient);
    var f := ClientRuns(s);
    FlagsStage(s, f);
    FinishClientFlags(s);
    TargetFdOpen(s, f);
    SameOwners(s, next, f);
    OperationsOfOne(s, next, f);
    PopKeepsStack(s, Done, next);
  }

  lemma TargetFdOpen(s: Loop, f: int)
    requires Ownership(s) && Flags(s) && f in s.conns
    ensures f in s.open && (s.conns[f].targetFd >= 0 ==> s.conns[f].targetFd in s.open) && s.shut <= s.open
  {
    assert FlagsOk(s, f) && OwnsIn(s.conns, f, f);
    if s.conns[f].targetFd >= 0 {
      assert OwnsIn(s.conns, f, s.conns[f].targetFd);
    }
  }

  lemma FinishClientFlags(s: Loop)
    requires Inv(s) && Enabled(s, FinishClient)
    ensures Flags(Next(s, FinishClient))
  {
    hide Ownership, Operations, Stack;
    var next := Next(s, FinishClient);
    var f := ClientRuns(s);
    FlagsFrame(s, next, f) by {
      assert FlagsOk(next, f);
      hide FlagsOk;
    }
  }

  lemma TargetRuns(s: Loop) returns (f: int)
    requires Inv(s) && TargetOnTop(s)
    ensures f == Top(s).fd && FlagsOk(s, f)
    ensures Target(f) in s.tasks && s.tasks[Target(f)].Active?
  {
    hide Ownership, Operations;
    f := Top(s).fd;
    assert Top(s) in s.running;
  }

  lemma EndTargetKeeps(s: Loop)
    requires Inv(s) && Enabled(s, EndTarget)
    ensures Inv(Next(s, EndTarget))
  {
    hide Ownership, Operations, Flags, Stack, FlagsOk;
    var next := Next(s, EndTarget);
    var f := TargetRuns(s);
    EndTargetFlags(s);
    TargetFdOpen(s, f);
    FlagsRelaying(s, f);
    SameOwners(s, next, f);
    OperationsOfOne(s, next, f);
    PopKeepsStack(s, Done, next);
  }

  lemma FlagsRelaying(s: Loop, f: int)
    requires f in s.conns && FlagsOk(s, f) && Target(f) in s.tasks
    ensures s.conns[f].stage.Relaying? && s.conns[f].clientFd == f
  {
  }

  lemma EndTargetFlags(s: Loop)
    requires Inv(s) && Enabled(s, EndTarget)
    ensures Flags(Next(s, EndTarget))
  {
    hide Ownership, Operations, Stack;
    var next := Next(s, EndTarget);
    var f := TargetRuns(s);
    FlagsFrame(s, next, f) by {
      assert FlagsOk(next, f);
      hide FlagsOk;
    }
  }

  // ---- Reaping ----

  /** No task of the connection is left that could be waiting for an operation. */
  lemma ReapedIsIdle(s: Loop, fd: int)
    requires Inv(s) && fd in s.conns && s.conns[fd].closed
    ensures ClientEnded(s, fd) && (Target(fd) in s.tasks ==> TargetEnded(s, fd))
    ensures s.conns[fd].clientFd == fd && !s.conns[fd].stage.Dialing?
  {
    assert FlagsOk(s, fd);
  }

  lemma NothingArmedOn(s: Loop, fd: int, x: int)
    requires Inv(s) && fd in s.conns && s.conns[fd].closed && OwnsIn(s.conns, fd, x)
    ensures forall k :: Armed(s, k) ==> s.reg.ops[k].fd != x
    ensures x !in s.reg.byFd
  {
    ReapedIsIdle(s, fd);
    hide Flags, Stack, R.Agrees;
    forall k | Armed(s, k)
      ensures s.reg.ops[k].fd != x
    {
      var w := s.owner[k];
      assert Touches(s, w, s.reg.ops[k].fd);
      assert w != Client(fd) && w != Target(fd);
      assert w.Acceptor? || w.fd != fd;
    }
    NoBucket(s.reg, x);
  }

  lemma NoBucket(r: R.Registry<nat>, x: int)
    requires R.Agrees(r) && forall k :: k in r.ops && r.ops[k].armed ==> r.ops[k].fd != x
    ensures x !in r.byFd
  {
    if x in r.byFd {
      var k :| k in r.byFd[x];
      assert R.Tracked(r, k, x);
    }
  }

  lemma ReapKeeps(s: Loop, fd: int)
    requires Inv(s) && Enabled(s, Reap(fd))
    ensures Inv(Next(s, Reap(fd)))
    ensures Next(s, Reap(fd)).reg == s.reg
  {
    ReapCancelsNothing(s, fd);
    ReapFlags(s, fd);
    ReapOwnership(s, fd);
    ReapOperations(s, fd);
    ReapStack(s, fd);
    hide Flags, Ownership, Operations, Stack, Next, Enabled;
  }

  lemma ReapOperations(s: Loop, fd: int)
    requires Inv(s) && Enabled(s, Reap(fd))
    ensures Operations(Next(s, Reap(fd)))
  {
    ReapCancelsNothing(s, fd);
    ReapedIsIdle(s, fd);
    hide Flags, Ownership, Stack, Operations;
    OperationsOfOne(s, Next(s, Reap(fd)), fd);
  }

  lemma ReapStack(s: Loop, fd: int)
    requires Inv(s) && Enabled(s, Reap(fd))
    ensures Stack(Next(s, Reap(fd)))
  {
    ReapedIsIdle(s, fd);
    hide Flags, Ownership, Operations, Shape;
  }

  lemma ReapCancelsNothing(s: Loop, fd: int)
    requires Inv(s) && Enabled(s, Reap(fd))
    ensures Next(s, Reap(fd)).reg == s.reg
  {
    hide Inv;
    var c := s.conns[fd];
    assert OwnsIn(s.conns, fd, c.clientFd);
    NothingArmedOn(s, fd, c.clientFd);
    if c.targetFd >= 0 {
      assert OwnsIn(s.conns, fd, c.targetFd);
      NothingArmedOn(s, fd, c.targetFd);
    }
  }

  lemma FlagsWithout(s: Loop, next: Loop, fd: int)
    requires Flags(s) && fd in s.conns
    requires next.conns == s.conns - {fd} && next.tasks == s.tasks - {Client(fd), Target(fd)}
    requires forall x :: x in s.shut && x != fd && x != s.conns[fd].targetFd ==> x in next.shut
    requires forall g :: g in s.conns && g != fd ==> Apart(s.conns[fd], s.conns[g])
    ensures Flags(next)
  {
    hide FlagsOk;
    assert FlagsOk(s, fd);
    forall g | g in next.conns
      ensures FlagsOk(next, g)
    {
      assert FlagsOk(s, g);
      FlagsOkWithout(s, next, fd, g);
    }
  }

  predicate Apart(c: Conn, d: Conn) {
    && d.clientFd != c.targetFd && d.clientFd != c.clientFd
    && (d.targetFd >= 0 ==> d.targetFd != c.targetFd && d.targetFd != c.clientFd)
  }

  lemma FlagsOkWithout(s: Loop, next: Loop, fd: int, g: int)
    requires fd in s.conns && g in s.conns && g != fd && FlagsOk(s, fd) && FlagsOk(s, g)
    requires g in next.conns && next.conns[g] == s.conns[g] && next.tasks == s.tasks - {Client(fd), Target(fd)}
    requires forall x :: x in s.shut && x != fd && x != s.conns[fd].targetFd ==> x in next.shut
    requires Apart(s.conns[fd], s.conns[g])
    ensures FlagsOk(next, g)
  {
  }

  lemma ReapFlags(s: Loop, fd: int)
    requires Inv(s) && Enabled(s, Reap(fd))
    ensures Flags(Next(s, Reap(fd)))
  {
    forall g | g in s.conns && g != fd
      ensures Apart(s.conns[fd], s.conns[g])
    {
      OthersApart(s, fd, g);
    }
    FlagsWithout(s, Next(s, Reap(fd)), fd) by {
      assert FlagsOk(s, fd);
    }
  }

  lemma OthersApart(s: Loop, f: int, g: int)
    requires Inv(s) && f in s.conns && g in s.conns && f != g
    ensures Apart(s.conns[f], s.conns[g])
  {
    hide Operations, Stack;
    assert FlagsOk(s, f) && FlagsOk(s, g);
    assert OwnsIn(s.conns, f, f) && OwnsIn(s.conns, g, g);
    if s.conns[f].targetFd >= 0 {
      assert OwnsIn(s.conns, f, s.conns[f].targetFd);
    }
    if s.conns[g].targetFd >= 0 {
      assert OwnsIn(s.conns, g, s.conns[g].targetFd);
    }
  }

  lemma ReapOwnership(s: Loop, fd: int)
    requires Inv(s) && Enabled(s, Reap(fd))
    ensures Ownership(Next(s, Reap(fd)))
  {
    ReapedIsIdle(s, fd);
    hide Flags, Operations, Stack;
    var next, c := Next(s, Reap(fd)), s.conns[fd];
    assert Distinct(c);
    assert OwnsIn(s.conns, fd, c.clientFd);
    if c.targetFd >= 0 {
      assert OwnsIn(s.conns, fd, c.targetFd);
    }
    assert forall x :: OwnsIn(s.conns, fd, x) <==> x == c.clientFd || (c.targetFd >= 0 && x == c.targetFd);
    OwnershipFrame(s, next, fd);
  }

  /** Every step keeps the invariant. */
  lemma NextKeepsInv(s: Loop, e: Event)
    requires Inv(s) && Enabled(s, e)
    ensures Inv(Next(s, e))
  {
    hide Inv, Next, Enabled;
    match e
    case Cqe(k, res) => CqeKeeps(s, k, res);
    case Submit(k, fd) => SubmitKeeps(s, k, fd);
    case SubmitAborted(k, fd, err) => SubmitAbortedKeeps(s, k, fd, err);
    case Accepted(fd) => AcceptedKeeps(s, fd);
    case Rejected(fd) => RejectedKeeps(s, fd);
    case Insert => InsertKeeps(s);
    case Dial(fd) => DialKeeps(s, fd);
    case DialFailed => DialFailedKeeps(s);
    case DialOk => DialOkKeeps(s);
    case StartTarget => StartTargetKeeps(s);
    case FinishClient => FinishClientKeeps(s);
    case EndTarget => EndTargetKeeps(s);
    case Reap(fd) => ReapKeeps(s, fd);
  }
}
