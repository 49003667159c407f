// Operations in flight and the table that tracks them by fd: UringOp, PendingUringOps,
// the completion callbacks and abortOp.
module OpRegistry {

  /** An operation: is its callback set, does it hold a coroutine handle, its fd, the result
      it was given, and how often it has resumed its coroutine. */
  datatype Op = Op(armed: bool, handle: bool, fd: int, result: int, resumes: nat)

  datatype Registry<!K(==)> = Registry(ops: map<K, Op>, byFd: map<int, set<K>>)

  /** Submit fills in a fresh operation and registers it; Abort is what a submission does when
      there is no ring or no queue entry; Cqe is a completion from the kernel, which may come
      late or for an operation that was cancelled; CancelFd is the closing of a connection. */
  datatype Event<K> =
    | Submit(op: K, fd: int)
    | Abort(op: K, err: int)
    | Cqe(op: K, res: int)
    | CancelFd(fd: int)

  // ---- The table ----

  function Added<K>(byFd: map<int, set<K>>, k: K, fd: int): map<int, set<K>> {
    if fd < 0 then byFd
    else if fd in byFd then byFd[fd := byFd[fd] + {k}]
    else byFd[fd := {k}]
  }

  function Removed<K>(byFd: map<int, set<K>>, k: K, fd: int): map<int, set<K>> {
    if fd < 0 || fd !in byFd then byFd
    else if byFd[fd] - {k} == {} then byFd - {fd}
    else byFd[fd := byFd[fd] - {k}]
  }

  // ---- Steps ----

  /** An operation as its completion or its abort leaves it: the handle is kept. */
  function Finished(o: Op, result: int): Op {
    Op(false, o.handle, o.fd, result, if o.handle then o.resumes + 1 else o.resumes)
  }

  function Cancelled(o: Op): Op {
    o.(armed := false, handle := false)
  }

  predicate Enabled<K>(r: Registry<K>, e: Event<K>) {
    match e
    case Submit(k, fd) => k !in r.ops
    case Abort(k, _) => k in r.ops
    case Cqe(k, _) => k in r.ops
    case CancelFd(_) => true
  }

  function Next<K>(r: Registry<K>, e: Event<K>): Registry<K>
    requires Enabled(r, e)
  {
    match e
    case Submit(k, fd) => Registry(r.ops[k := Op(true, true, fd, 0, 0)], Added(r.byFd, k, fd))
    case Abort(k, err) => Registry(r.ops[k := Finished(r.ops[k], err)], Removed(r.byFd, k, r.ops[k].fd))
    case Cqe(k, res) =>
      if !r.ops[k].armed then r
      else Registry(r.ops[k := Finished(r.ops[k], res)], Removed(r.byFd, k, r.ops[k].fd))
    case CancelFd(fd) =>
      if fd < 0 || fd !in r.byFd then r
      else Registry(map k | k in r.ops :: if k in r.byFd[fd] then Cancelled(r.ops[k]) else r.ops[k],
                    r.byFd - {fd})
  }

  // ---- Agreement ----

  predicate Tracked<K>(r: Registry<K>, k: K, fd: int) {
    fd in r.byFd && k in r.byFd[fd]
  }

  predicate ArmedOn<K>(r: Registry<K>, k: K, fd: int) {
    fd >= 0 && k in r.ops && r.ops[k].armed && r.ops[k].fd == fd
  }

  /** The table is the grouping by fd of exactly the armed operations with a real fd,
      without empty buckets. */
  ghost predicate Agrees<K(!new)>(r: Registry<K>) {
    && (forall k, fd :: Tracked(r, k, fd) <==> ArmedOn(r, k, fd))
    && (forall fd :: fd in r.byFd ==> r.byFd[fd] != {})
  }

  /** Nothing is resumed twice: an armed operation has not been resumed yet. */
  ghost predicate Once<K(!new)>(r: Registry<K>) {
    forall k :: k in r.ops ==> r.ops[k].resumes <= 1 && (r.ops[k].armed ==> r.ops[k].handle && r.ops[k].resumes == 0)
  }

  /** abortOp is only ever called on the operation just registered. */
  ghost predicate AbortsArmed<K>(r: Registry<K>, e: Event<K>) {
    e.Abort? && e.op in r.ops ==> r.ops[e.op].armed
  }

  lemma NextKeepsAgreement<K(!new)>(r: Registry<K>, e: Event<K>)
    requires Agrees(r) && Enabled(r, e)
    ensures Agrees(Next(r, e))
  {
    hide Next, Agrees;
    match e
    case Submit(k, fd) => SubmitKeepsAgreement(r, k, fd);
    case Abort(k, err) => FinishKeepsAgreement(r, k, err);
    case Cqe(k, res) => FinishKeepsAgreement(r, k, res);
    case CancelFd(fd) => CancelKeepsAgreement(r, fd);
  }

  lemma SubmitKeepsAgreement<K(!new)>(r: Registry<K>, k: K, fd: int)
    requires Agrees(r) && k !in r.ops
    ensures Agrees(Next(r, Event<K>.Submit(k, fd)))
  {
    var next := Next(r, Event<K>.Submit(k, fd));
    forall x, f
      ensures Tracked(next, x, f) <==> ArmedOn(next, x, f)
    {
      assert Tracked(r, x, f) <==> ArmedOn(r, x, f);
    }
  }

  lemma CancelKeepsAgreement<K(!new)>(r: Registry<K>, fd: int)
    requires Agrees(r)
    ensures Agrees(Next(r, Event<K>.CancelFd(fd)))
  {
    var next := Next(r, Event<K>.CancelFd(fd));
    forall x, f
      ensures Tracked(next, x, f) <==> ArmedOn(next, x, f)
    {
      assert Tracked(r, x, f) <==> ArmedOn(r, x, f);
      assert Tracked(r, x, fd) <==> ArmedOn(r, x, fd);
    }
  }

  lemma FinishKeepsAgreement<K(!new)>(r: Registry<K>, k: K, res: int)
    requires Agrees(r) && k in r.ops
    ensures Agrees(Next(r, Event<K>.Abort(k, res)))
    ensures Agrees(Next(r, Event<K>.Cqe(k, res)))
  {
    var fd := r.ops[k].fd;
    var next := Next(r, Event<K>.Abort(k, res));
    forall x, f
      ensures Tracked(next, x, f) <==> ArmedOn(next, x, f)
    {
      assert Tracked(r, x, f) <==> ArmedOn(r, x, f);
      assert Tracked(r, k, f) <==> ArmedOn(r, k, f);
      if f == fd && f in r.byFd && x in r.byFd[f] && x != k {
        assert x in r.byFd[f] - {k};
      }
    }
  }

  lemma NextKeepsOnce<K(!new)>(r: Registry<K>, e: Event<K>)
    requires Once(r) && Enabled(r, e) && AbortsArmed(r, e)
    ensures Once(Next(r, e))
  {
  }

  // ---- Runs ----

  ghost predicate Runs<K>(r: Registry<K>, events: seq<Event<K>>, end: Registry<K>)
    decreases |events|
  {
    if events == [] then end == r
    else Enabled(r, events[0]) && AbortsArmed(r, events[0]) && Runs(Next(r, events[0]), events[1..], end)
  }

  /** Over any run the table agrees with the operations and no coroutine is resumed twice. */
  lemma {:induction false} AlwaysAgrees<K(!new)>(r: Registry<K>, events: seq<Event<K>>, end: Registry<K>)
    requires Agrees(r) && Once(r) && Runs(r, events, end)
    ensures Agrees(end) && Once(end)
    decreases |events|
  {
    if events != [] {
      NextKeepsAgreement(r, events[0]);
      NextKeepsOnce(r, events[0]);
      AlwaysAgrees(Next(r, events[0]), events[1..], end);
    }
  }

  lemma EmptyAgrees<K(!new)>()
    ensures Agrees<K>(Registry(map[], map[])) && Once<K>(Registry(map[], map[]))
  {
  }

  /** So it is for every run from the start of the program, when nothing is registered. */
  lemma EveryRunAgrees<K(!new)>(events: seq<Event<K>>, end: Registry<K>)
    requires Runs(Registry(map[], map[]), events, end)
    ensures Agrees(end) && Once(end)
  {
    EmptyAgrees<K>();
    AlwaysAgrees(Registry(map[], map[]), events, end);
  }

  /** An operation that is no longer armed stays as it is over any run: a late completion
      changes nothing and resumes nothing. */
  lemma {:induction false} DeadStaysDead<K(!new)>(r: Registry<K>, events: seq<Event<K>>, end: Registry<K>, k: K)
    requires Agrees(r) && Runs(r, events, end) && k in r.ops && !r.ops[k].armed
    ensures k in end.ops && end.ops[k] == r.ops[k]
    decreases |events|
  {
    if events != [] {
      var next := Next(r, events[0]);
      NextKeepsAgreement(r, events[0]);
      if events[0].CancelFd? && events[0].fd in r.byFd {
        assert !Tracked(r, k, events[0].fd);
      }
      assert k in next.ops && next.ops[k] == r.ops[k];
      DeadStaysDead(next, events[1..], end, k);
    }
  }

  /** After cancelFd(fd) no operation on fd is armed, and no coroutine waiting on one is ever
      resumed through it, whatever happens next. */
  lemma CancelledForGood<K(!new)>(r: Registry<K>, fd: int, events: seq<Event<K>>, end: Registry<K>, k: K)
    requires Agrees(r) && fd >= 0 && Runs(Next(r, CancelFd(fd)), events, end)
    requires k in r.ops && r.ops[k].fd == fd
    ensures k in end.ops && !end.ops[k].armed && end.ops[k].resumes == r.ops[k].resumes
  {
    var next := Next(r, CancelFd(fd));
    NextKeepsAgreement(r, CancelFd(fd));
    assert !Tracked(next, k, fd);
    DeadStaysDead(next, events, end, k);
  }

  /** The guard on abortOp is needed: it keeps the handle, so aborting an operation that has
      completed resumes its coroutine again. It is harmless exactly when the operation has
      not been resumed or holds no handle. */
  lemma AbortResumesAgain<K(!new)>(r: Registry<K>, k: K, err: int)
    requires Once(r) && k in r.ops
    ensures Next(r, Abort(k, err)).ops[k].resumes <= 1 <==> r.ops[k].resumes == 0 || !r.ops[k].handle
  {
  }

  /** A submission that is aborted at once leaves the table as it was. */
  lemma SubmitThenAbort<K(!new)>(r: Registry<K>, k: K, fd: int, err: int)
    requires Agrees(r) && k !in r.ops
    ensures var aborted := Next(Next(r, Submit(k, fd)), Abort(k, err));
            aborted.byFd == r.byFd && aborted.ops == r.ops[k := Op(false, true, fd, err, 1)]
  {
    if fd >= 0 && fd in r.byFd {
      assert !Tracked(r, k, fd);
      assert r.byFd[fd] + {k} - {k} == r.byFd[fd];
    }
  }

  // ---- What becomes of one operation ----

  predicate Decides<K(==)>(e: Event<K>, k: K, fd: int) {
    match e
    case Cqe(x, _) => x == k
    case Abort(x, _) => x == k
    case CancelFd(x) => fd >= 0 && x == fd
    case Submit(_, _) => false
  }

  /** From its submission on an operation waits until the first completion, abort or closing that
      concerns it, and that alone decides: a completion resumes the coroutine once with its own
      result, an abort once with its error, and a closing never. */
  lemma FirstEventDecides<K(!new)>(r: Registry<K>, k: K, fd: int, events: seq<Event<K>>, end: Registry<K>, i: nat)
    requires Agrees(r) && k !in r.ops && Runs(Next(r, Submit(k, fd)), events, end)
    requires i <= |events| && forall j :: 0 <= j < i ==> !Decides(events[j], k, fd)
    requires i < |events| ==> Decides(events[i], k, fd)
    ensures k in end.ops
    ensures i == |events| ==> end.ops[k] == Op(true, true, fd, 0, 0)
    ensures i < |events| ==>
              match events[i]
              case Cqe(_, res) => end.ops[k] == Op(false, true, fd, res, 1)
              case Abort(_, err) => end.ops[k] == Op(false, true, fd, err, 1)
              case _ => end.ops[k] == Op(false, false, fd, 0, 0)
  {
    NextKeepsAgreement(r, Submit(k, fd));
    WaitsUntil(Next(r, Submit(k, fd)), k, fd, events, end, i);
  }

  lemma {:induction false} WaitsUntil<K(!new)>(r: Registry<K>, k: K, fd: int, events: seq<Event<K>>, end: Registry<K>,
                                               i: nat)
    requires Agrees(r) && k in r.ops && r.ops[k] == Op(true, true, fd, 0, 0) && Runs(r, events, end)
    requires i <= |events| && forall j :: 0 <= j < i ==> !Decides(events[j], k, fd)
    requires i < |events| ==> Decides(events[i], k, fd)
    ensures k in end.ops
    ensures i == |events| ==> end.ops[k] == Op(true, true, fd, 0, 0)
    ensures i < |events| ==>
              match events[i]
              case Cqe(_, res) => end.ops[k] == Op(false, true, fd, res, 1)
              case Abort(_, err) => end.ops[k] == Op(false, true, fd, err, 1)
              case _ => end.ops[k] == Op(false, false, fd, 0, 0)
    decreases |events|
  {
    if events != [] {
      NextKeepsAgreement(r, events[0]);
      OneStep(r, k, fd, events[0]);
      if i > 0 {
        WaitsUntil(Next(r, events[0]), k, fd, events[1..], end, i - 1);
      } else {
        DeadStaysDead(Next(r, events[0]), events[1..], end, k);
      }
    }
  }

  lemma OneStep<K(!new)>(r: Registry<K>, k: K, fd: int, e: Event<K>)
    requires Agrees(r) && k in r.ops && r.ops[k] == Op(true, true, fd, 0, 0) && Enabled(r, e)
    ensures k in Next(r, e).ops
    ensures !Decides(e, k, fd) ==> Next(r, e).ops[k] == r.ops[k]
    ensures Decides(e, k, fd) ==>
              match e
              case Cqe(_, res) => Next(r, e).ops[k] == Op(false, true, fd, res, 1)
              case Abort(_, err) => Next(r, e).ops[k] == Op(false, true, fd, err, 1)
              case _ => Next(r, e).ops[k] == Op(false, false, fd, 0, 0)
  {
    if e.CancelFd? {
      assert Tracked(r, k, e.fd) <==> ArmedOn(r, k, e.fd);
    }
  }

  // ---- The heap objects ----

  class UringOp {
    var armed: bool     // onComplete is set
    var handle: bool    // handle is set, and its coroutine is suspended
    var fd: int
    var result: int
    ghost var resumes: nat

    constructor ()
      ensures !armed && !handle && fd == -1 && resumes == 0
    {
      armed, handle, fd, result, resumes := false, false, -1, 0, 0;
    }

    ghost function View(): Op
      reads this
    {
      Op(armed, handle, fd, result, resumes)
    }

    method Resume()
      modifies this
      ensures View() == old(View()).(resumes := old(resumes) + 1)
    {
      resumes := resumes + 1;
    }
  }

  class PendingUringOps {
    var byFd: map<int, set<UringOp>>

    constructor ()
      ensures byFd == map[]
    {
      byFd := map[];
    }

    ghost function View(all: set<UringOp>): Registry<UringOp>
      reads this, all
    {
      Registry(map op | op in all :: op.View(), byFd)
    }

    method Add(op: UringOp)
      modifies this
      ensures byFd == Added(old(byFd), op, op.fd)
    {
      if op.fd < 0 {
        return;
      }
      if op.fd !in byFd {
        byFd := byFd[op.fd := {}];
      }
      assert {} + {op} == {op};
      byFd := byFd[op.fd := byFd[op.fd] + {op}];
    }

    method Remove(op: UringOp)
      modifies this
      ensures byFd == Removed(old(byFd), op, op.fd)
    {
      if op.fd < 0 || op.fd !in byFd {
        return;
      }
      byFd := byFd[op.fd := byFd[op.fd] - {op}];
      if byFd[op.fd] == {} {
        byFd := byFd - {op.fd};
      }
    }

    method CancelFd(fd: int, ghost all: set<UringOp>)
      requires forall f :: f in byFd ==> byFd[f] <= all
      modifies this, all
      ensures View(all) == Next(old(View(all)), Event.CancelFd(fd))
      ensures forall f :: f in byFd ==> f in old(byFd) && byFd[f] == old(byFd[f])
      ensures fd >= 0 ==> fd !in byFd
      ensures forall o :: o in all ==>
                if fd >= 0 && fd in old(byFd) && o in old(byFd[fd])
                then !o.armed && !o.handle && o.resumes == old(o.resumes)
                else o.View() == old(o.View())
    {
      if fd < 0 || fd !in byFd {
        return;
      }
      var bucket := byFd[fd];
      var todo := bucket;
      while todo != {}
        invariant todo <= bucket && byFd == old(byFd)
        invariant forall op :: op in all ==>
                    op.View() == if op in bucket && op !in todo then Cancelled(old(op.View())) else old(op.View())
        decreases |todo|
      {
        var op :| op in todo;
        op.armed := false;
        op.handle := false;
        todo := todo - {op};
      }
      byFd := byFd - {fd};
    }

    /** The registering part of every await_suspend: fill in the operation and track it. */
    method Submit(op: UringOp, fd: int, ghost all: set<UringOp>)
      requires op !in all && !op.armed && op.resumes == 0 && op.result == 0
      modifies this, op
      ensures View(all + {op}) == Next(old(View(all)), Event.Submit(op, fd))
    {
      op.fd := fd;
      op.handle := true;
      op.armed := true;
      Add(op);
    }

    /** abortOp. */
    method Abort(op: UringOp, err: int, ghost all: set<UringOp>)
      requires op in all
      modifies this, op
      ensures View(all) == Next(old(View(all)), Event.Abort(op, err))
      ensures !op.armed && op.result == err && op.resumes == old(op.resumes) + (if old(op.handle) then 1 else 0)
      ensures forall o :: o in all && o != op ==> o.View() == old(o.View())
    {
      op.result := err;
      Remove(op);
      op.armed := false;
      if op.handle {
        op.Resume();
      }
    }

    /** completeFromCqe, with the completion callback shared by RecvOp, WriteOp and AcceptOp. */
    method CompleteFromCqe(op: UringOp, res: int, ghost all: set<UringOp>)
      requires op in all
      modifies this, op
      ensures View(all) == Next(old(View(all)), Event.Cqe(op, res))
      // a coroutine that waits is resumed, once, and finds the result
      ensures old(op.armed && op.handle) ==> !op.armed && op.result == res && op.resumes == old(op.resumes) + 1
      ensures old(op.armed && !op.handle) ==> !op.armed && op.result == res && op.resumes == old(op.resumes)
      ensures !old(op.armed) ==> op.View() == old(op.View())
      ensures forall o :: o in all && o != op ==> o.View() == old(o.View())
    {
      if !op.armed {
        return;
      }
      op.result := res;
      var h := op.handle;
      Remove(op);
      op.armed := false;
      if h {
        op.Resume();
      }
    }
  }
}
