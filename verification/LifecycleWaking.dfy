// When the first of a connection's two coroutines to end wakes the other: shutting down a
// descriptor completes the operations on that descriptor and on no other.
module LifecycleWaking {
  import opened Lifecycle
  import P = LifecycleProofs
  import T = LifecycleTheorems

  /** x was shut down by the end of one of the coroutines of f, which has it. */
  predicate ShutBy(s: Loop, f: int, x: int) {
    f in s.conns && (
      || (x == s.conns[f].clientFd && TargetEnded(s, f))
      || (s.conns[f].targetFd >= 0 && x == s.conns[f].targetFd && ClientEnded(s, f)))
  }

  /** Nothing else is ever shut down. */
  ghost predicate Shut(s: Loop) {
    forall x :: x in s.shut ==> exists f :: ShutBy(s, f, x)
  }

  lemma ShutFrame(s: Loop, next: Loop)
    requires Shut(s) && next.shut <= s.shut
    requires forall f, x :: x in next.shut && ShutBy(s, f, x) ==> ShutBy(next, f, x)
    ensures Shut(next)
  {
    hide ShutBy;
    forall x | x in next.shut
      ensures exists f :: ShutBy(next, f, x)
    {
      var f :| ShutBy(s, f, x);
      assert ShutBy(next, f, x);
    }
  }

  /** A connection's end adds the descriptor it shuts down. */
  lemma ShutOneMore(s: Loop, next: Loop, f: int, added: set<int>)
    requires Shut(s) && next.shut == s.shut + added
    requires forall g, x :: x in s.shut && ShutBy(s, g, x) ==> ShutBy(next, g, x)
    requires forall x :: x in added ==> ShutBy(next, f, x)
    ensures Shut(next)
  {
    hide ShutBy;
    forall x | x in next.shut
      ensures exists g :: ShutBy(next, g, x)
    {
      if x in s.shut {
        var g :| ShutBy(s, g, x);
        assert ShutBy(next, g, x);
      }
    }
  }

  lemma NextKeepsShut(s: Loop, e: Event)
    requires Inv(s) && Shut(s) && Enabled(s, e)
    ensures Shut(Next(s, e))
  {
    hide Inv, Shut, Next, Enabled;
    match e
    case Cqe(k, res) => QuietKeepsShut(s, e);
    case Submit(k, fd) => QuietKeepsShut(s, e);
    case SubmitAborted(k, fd, err) => QuietKeepsShut(s, e);
    case Insert => QuietKeepsShut(s, e);
    case Rejected(fd) => QuietKeepsShut(s, e);
    case Accepted(fd) => AcceptedKeepsShut(s, fd);
    case Dial(fd) => ConnectKeepsShut(s, e);
    case DialOk => ConnectKeepsShut(s, e);
    case DialFailed => ConnectKeepsShut(s, e);
    case StartTarget => ConnectKeepsShut(s, e);
    case FinishClient => FinishKeepsShut(s);
    case EndTarget => EndKeepsShut(s);
    case Reap(fd) => ReapKeepsShut(s, fd);
  }

  /** Steps that leave the connections alone and end no coroutine. */
  lemma QuietKeepsShut(s: Loop, e: Event)
    requires Inv(s) && Shut(s) && Enabled(s, e)
    requires e.Cqe? || e.Submit? || e.SubmitAborted? || e.Insert? || e.Rejected?
    ensures Shut(Next(s, e))
  {
    var next := Next(s, e);
    EndedStaysEnded(s, e);
    assert next.conns == s.conns && next.shut <= s.shut;
    hide Flags, Ownership, Operations, Stack, Shut, Next, Enabled;
    ShutFrame(s, next);
  }

  lemma EndedStaysEnded(s: Loop, e: Event)
    requires Inv(s) && Enabled(s, e) && (e.Cqe? || e.Submit? || e.SubmitAborted? || e.Insert? || e.Rejected?)
    ensures forall w :: w in s.tasks && s.tasks[w].Done? ==> w in Next(s, e).tasks && Next(s, e).tasks[w].Done?
  {
    hide Flags, Ownership;
    if e.Submit? {
      P.TopIsActive(s);
    } else if e.Cqe? {
      assert s.reg.ops[e.op].armed ==> Armed(s, e.op);
    }
  }

  lemma AcceptedKeepsShut(s: Loop, fd: int)
    requires Inv(s) && Shut(s) && Enabled(s, Accepted(fd))
    ensures Shut(Next(s, Accepted(fd)))
  {
    var next := Next(s, Accepted(fd));
    P.NewFdIsFresh(s, fd);
    hide Flags, Ownership, Operations, Stack, Shut;
    ShutFrame(s, next);
  }

  /** Steps of a client coroutine that is still connecting. */
  lemma ConnectKeepsShut(s: Loop, e: Event)
    requires Inv(s) && Shut(s) && Enabled(s, e)
    requires e.Dial? || e.DialOk? || e.DialFailed? || e.StartTarget?
    ensures Shut(Next(s, e))
  {
    var next := Next(s, e);
    var f := P.ClientRuns(s);
    P.FlagsStage(s, f);
    hide Flags, Ownership, Operations, Stack, Shut, FlagsOk;
    assert next.shut <= s.shut;
    assert !ClientEnded(s, f) && !TargetEnded(s, f);
    forall g, x | ShutBy(s, g, x)
      ensures ShutBy(next, g, x)
    {
      assert g != f;
    }
    ShutFrame(s, next);
  }

  lemma FinishKeepsShut(s: Loop)
    requires Inv(s) && Shut(s) && Enabled(s, FinishClient)
    ensures Shut(Next(s, FinishClient))
  {
    var next := Next(s, FinishClient);
    var f := P.ClientRuns(s);
    hide Flags, Ownership, Operations, Stack, Shut, FlagsOk;
    var added := Finish(s.conns[f]).1;
    assert next.shut == s.shut + added;
    ShutOneMore(s, next, f, added);
  }

  lemma EndKeepsShut(s: Loop)
    requires Inv(s) && Shut(s) && Enabled(s, EndTarget)
    ensures Shut(Next(s, EndTarget))
  {
    var next := Next(s, EndTarget);
    var f := P.TargetRuns(s);
    hide Flags, Ownership, Operations, Stack, Shut, FlagsOk;
    var added := TargetEnd(s.conns[f]).1;
    assert next.shut == s.shut + added;
    ShutOneMore(s, next, f, added);
  }

  lemma ReapKeepsShut(s: Loop, fd: int)
    requires Inv(s) && Shut(s) && Enabled(s, Reap(fd))
    ensures Shut(Next(s, Reap(fd)))
  {
    var next := Next(s, Reap(fd));
    ReapedFields(s, fd);
    hide Flags, Ownership, Operations, Stack, Shut, Next, Enabled;
    ShutFrame(s, next);
  }

  lemma ReapedFields(s: Loop, fd: int)
    requires Flags(s) && Enabled(s, Reap(fd))
    ensures var next := Next(s, Reap(fd));
            && next.conns == s.conns - {fd} && next.tasks == s.tasks - {Client(fd), Target(fd)}
            && next.shut <= s.shut && forall x :: x in next.shut ==> !ShutBy(s, fd, x)
  {
    assert FlagsOk(s, fd);
    hide Flags, FlagsOk;
  }

  lemma {:induction false} RunKeepsShut(s: Loop, events: seq<Event>, end: Loop)
    requires Inv(s) && Shut(s) && T.Runs(s, events, end)
    ensures Shut(end)
    decreases |events|
  {
    hide Inv, Shut, Next, Enabled;
    if events != [] {
      P.NextKeepsInv(s, events[0]);
      NextKeepsShut(s, events[0]);
      RunKeepsShut(Next(s, events[0]), events[1..], end);
    }
  }

  lemma AlwaysShut(s: Loop)
    requires T.Reachable(s)
    ensures Shut(s)
  {
    hide Inv;
    var protocol, listenFd, events :| T.Runs(Started(protocol, listenFd), events, s);
    T.StartedInv(protocol, listenFd);
    RunKeepsShut(Started(protocol, listenFd), events, s);
  }

  // ---- Who is woken ----

  /** The coroutine is suspended on an operation whose descriptor has been shut down. */
  predicate Woken(s: Loop, w: Who) {
    w in s.tasks && s.tasks[w].Waiting? && s.tasks[w].op in s.reg.ops && s.reg.ops[s.tasks[w].op].fd in s.shut
  }

  /** The first of the two to end shuts down the descriptor it was writing to, and that wakes
      the other exactly when the other is waiting on that descriptor: a coroutine suspended
      in a write to the side that ended first is not woken. */
  lemma WokenExactly(s: Loop, f: int, w: Who)
    requires T.Reachable(s) && f in s.conns && s.conns[f].targetStarted && w in s.tasks && s.tasks[w].Waiting?
    requires (w == Target(f) && ClientEnded(s, f)) || (w == Client(f) && TargetEnded(s, f))
    ensures s.tasks[w].op in s.reg.ops
    ensures Woken(s, w) <==> s.reg.ops[s.tasks[w].op].fd == if w.Target? then s.conns[f].targetFd else f
  {
    T.AlwaysInv(s);
    AlwaysShut(s);
    hide T.Reachable;
    ShutOfOne(s, f, w);
  }

  /** Of the descriptors of a connection only the one that the other's end shuts down is shut. */
  lemma ShutOfOne(s: Loop, f: int, w: Who)
    requires Inv(s) && Shut(s) && f in s.conns && s.conns[f].targetStarted
    requires w in s.tasks && s.tasks[w].Waiting? && (w == Client(f) || w == Target(f))
    ensures s.tasks[w].op in s.reg.ops
    ensures s.reg.ops[s.tasks[w].op].fd in s.shut <==>
              if w.Target? then ClientEnded(s, f) && s.reg.ops[s.tasks[w].op].fd == s.conns[f].targetFd
              else TargetEnded(s, f) && s.reg.ops[s.tasks[w].op].fd == f
  {
    assert FlagsOk(s, f) && Distinct(s.conns[f]);
    var k := s.tasks[w].op;
    assert Armed(s, k) && s.owner[k] == w;
    var x := s.reg.ops[k].fd;
    assert OwnsIn(s.conns, f, x);
    hide Operations, Stack;
    if x in s.shut {
      var g :| ShutBy(s, g, x);
      assert FlagsOk(s, g) && OwnsIn(s.conns, g, x);
      assert g == f;
    }
  }

  // ---- A coroutine that is not woken ----

  /** From a state in which both coroutines run, the target's suspends in a write to the
      client; then the client's ends. */
  lemma ASurvivorIsNotWoken() returns (s: Loop)
    ensures T.Reachable(s) && 7 in s.conns && ClientEnded(s, 7) && !s.conns[7].closed
    ensures Target(7) in s.tasks && s.tasks[Target(7)] == Waiting(0) && !Woken(s, Target(7))
  {
    T.Begins();
    hide T.Reachable;
    var b := T.BOTH_RUNNING;
    var s1 := Next(b, Submit(0, 7));
    T.ReachableThen(b, Submit(0, 7));
    assert s1.running == [Acceptor, Client(7)];
    s := Next(s1, FinishClient);
    T.ReachableThen(s1, FinishClient);
    assert s.shut == {8} && s.reg.ops[0].fd == 7;
  }
}
