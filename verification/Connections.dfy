// The objects behind the step system of Lifecycle: a connection's flags and descriptors, and
// the event loop's cleanup pass.
module Connections {
  import opened Bytes
  import R = OpRegistry
  import L = Lifecycle

  /** The process's descriptors: which are open, which were shut down. */
  class Descriptors {
    var open: set<int>
    var shut: set<int>
    var closes: nat

    method Shutdown(fd: int)
      modifies this`shut
      ensures shut == old(shut) + {fd}
    {
      shut := shut + {fd};
    }

    method Close(fd: int)
      modifies this
      ensures open == old(open) - {fd} && shut == old(shut) - {fd} && closes == old(closes) + 1
    {
      open, shut, closes := open - {fd}, shut - {fd}, closes + 1;
    }
  }

  /** A VlessConnection; a Socks5Connection has the same fields under the names app and
      remote, and the same close protocol. */
  class Connection {
    var clientFd: int
    var targetFd: int
    var clientReadDone: bool
    var targetReadDone: bool
    var targetTaskStarted: bool
    var closed: bool
    ghost var stage: L.Stage
    ghost var finishes: nat

    constructor (fd: int)
      ensures View() == L.Conn(fd, -1, false, false, false, false, L.Setup, 0)
    {
      clientFd, targetFd := fd, -1;
      clientReadDone, targetReadDone, targetTaskStarted, closed := false, false, false, false;
      stage, finishes := L.Setup, 0;
    }

    ghost function View(): L.Conn
      reads this
    {
      L.Conn(clientFd, targetFd, clientReadDone, targetReadDone, targetTaskStarted, closed, stage, finishes)
    }

    method FinishClientTask(os: Descriptors)
      modifies this, os`shut
      ensures View() == L.Finish(old(View())).0
      ensures os.shut == old(os.shut) + L.Finish(old(View())).1
    {
      clientReadDone := true;
      finishes := finishes + 1;
      if !targetTaskStarted {
        closed := true;
        return;
      }
      if !targetReadDone && targetFd >= 0 {
        os.Shutdown(targetFd);
        return;
      }
      closed := true;
    }

    /** What targetTask (remoteTask) does when its relay is over, however it ended. */
    method EndTargetTask(os: Descriptors)
      modifies this, os`shut
      ensures View() == L.TargetEnd(old(View())).0
      ensures os.shut == old(os.shut) + L.TargetEnd(old(View())).1
    {
      targetReadDone := true;
      if !clientReadDone && clientFd >= 0 {
        os.Shutdown(clientFd);
      }
      if clientReadDone && targetReadDone {
        closed := true;
      }
    }

    /** connectTarget, startTargetTask and the relay: true in `prepared`, `connected` and
        `relayed` is the step's normal result, false a refusal or an exception. The target
        task may end while the client task is still relaying. */
    method RunSession(prepared: bool, connected: bool, dialed: int, relayed: bool, targetEnds: bool, os: Descriptors)
      returns (normalEnd: bool)
      modifies this, os`shut
      ensures normalEnd <==> prepared && connected && relayed
      ensures prepared && connected ==>
                var started := old(View()).(targetFd := dialed, targetStarted := true, stage := L.Relaying);
                View() == (if targetEnds then L.TargetEnd(started).0 else started) &&
                os.shut == old(os.shut) + (if targetEnds then L.TargetEnd(started).1 else {})
      ensures !(prepared && connected) ==> View() == old(View()) && os.shut == old(os.shut)
    {
      if !prepared {
        return false;
      }
      if !connected {
        return false;
      }
      targetFd := dialed;
      targetTaskStarted := true;
      stage := L.Relaying;
      if targetEnds {
        EndTargetTask(os);
      }
      return relayed;
    }

    /** clientTask of a VLESS connection, over every outcome of what it awaits: the TLS
        handshake when TLS is configured, the VLESS handshake (None: it threw), the session. */
    method ClientTask(tls: Option<bool>, command: Option<byte>, prepared: bool, connected: bool, dialed: nat,
                      relayed: bool, targetEnds: bool, os: Descriptors)
      requires View() == L.Conn(clientFd, -1, false, false, false, false, L.Setup, 0) && clientFd >= 0
      modifies this, os`shut
      ensures finishes == 1 && clientReadDone
      ensures targetTaskStarted <==>
                tls != Some(false) && (command == Some(1) || command == Some(2)) && prepared && connected
      ensures targetReadDone <==> targetTaskStarted && targetEnds
      ensures closed <==> !targetTaskStarted || targetReadDone
      ensures targetTaskStarted && !targetEnds ==> targetFd == dialed && os.shut == old(os.shut) + {dialed}
      ensures targetTaskStarted && targetEnds ==> targetFd == dialed && os.shut == old(os.shut) + {clientFd}
      ensures !targetTaskStarted ==> os.shut == old(os.shut)
      ensures clientFd == old(clientFd)
    {
      if tls == Some(false) {
        FinishClientTask(os);
        return;
      }
      if command.Some? {
        if command.value == 1 || command.value == 2 {
          var normalEnd := RunSession(prepared, connected, dialed, relayed, targetEnds, os);
        }
      }
      FinishClientTask(os);
    }

    /** clientTask of a SOCKS5 connection: the greeting (None: it threw), the greeting's
        reply, the request's command, then CONNECT. A UDP association starts no remote task. */
    method AppTask(noAuth: Option<bool>, greeted: bool, command: Option<byte>, connected: bool, remote: nat,
                   replied: bool, forwarded: bool, remoteEnds: bool, os: Descriptors)
      requires View() == L.Conn(clientFd, -1, false, false, false, false, L.Setup, 0) && clientFd >= 0
      modifies this, os`shut
      ensures finishes == 1 && clientReadDone
      ensures targetTaskStarted <==>
                noAuth == Some(true) && greeted && command == Some(1) && connected && replied && forwarded
      ensures targetFd == if noAuth == Some(true) && greeted && command == Some(1) && connected then remote else -1
      ensures targetReadDone <==> targetTaskStarted && remoteEnds
      ensures closed <==> !targetTaskStarted || targetReadDone
      ensures targetTaskStarted ==> os.shut == old(os.shut) + (if remoteEnds then {clientFd} else {remote})
      ensures !targetTaskStarted ==> os.shut == old(os.shut)
      ensures clientFd == old(clientFd)
    {
      if noAuth == Some(false) {
        FinishClientTask(os);
        return;
      }
      if noAuth == Some(true) {
        if !greeted {
          FinishClientTask(os);
          return;
        }
        if command == Some(1) && connected {
          targetFd := remote;
          stage := L.Ready;
          if replied && forwarded {
            targetTaskStarted := true;
            stage := L.Relaying;
            if remoteEnds {
              EndTargetTask(os);
            }
          }
        }
      }
      FinishClientTask(os);
    }

    /** doClose, run by the destructor. */
    method DoClose(os: Descriptors, pending: R.PendingUringOps, ghost all: set<R.UringOp>)
      requires forall f :: f in pending.byFd ==> pending.byFd[f] <= all
      modifies this, os, pending, all
      ensures pending.View(all) == L.Cancelled(old(pending.View(all)), old(View()))
      ensures forall f :: f in pending.byFd ==> pending.byFd[f] <= all
      ensures os.open == old(os.open) - Fds(old(View())) && os.shut == old(os.shut) - Fds(old(View()))
      ensures os.closes ==
              old(os.closes) + (if old(clientFd) >= 0 then 1 else 0) + (if old(targetFd) >= 0 then 1 else 0)
      ensures closed && clientFd < 0 && targetFd < 0
      ensures old(clientFd) >= 0 ==> old(clientFd) !in pending.byFd
      ensures old(targetFd) >= 0 ==> old(targetFd) !in pending.byFd
    {
      hide R.Next, R.PendingUringOps.View;
      closed := true;
      if clientFd >= 0 {
        pending.CancelFd(clientFd, all);
      }
      if targetFd >= 0 {
        pending.CancelFd(targetFd, all);
      }
      if targetFd >= 0 {
        os.Close(targetFd);
        targetFd := -1;
      }
      if clientFd >= 0 {
        os.Close(clientFd);
        clientFd := -1;
      }
    }
  }

  function Fds(c: L.Conn): set<int> {
    (if c.clientFd >= 0 then {c.clientFd} else {}) + (if c.targetFd >= 0 then {c.targetFd} else {})
  }

  class EventLoop {
    var connections: map<int, Connection>

    /** Every connection is filed under its own client fd. */
    ghost predicate Valid()
      reads this, connections.Values
    {
      forall f :: f in connections ==> f >= 0 && connections[f].clientFd == f
    }

    ghost function Views(): map<int, L.Conn>
      reads this, connections.Values
    {
      map f | f in connections :: connections[f].View()
    }

    /** One turn of the loop that erases: the map entry goes, and with it the connection. */
    method Erase(f: int, os: Descriptors, pending: R.PendingUringOps, ghost all: set<R.UringOp>)
      requires Valid() && f in connections && forall g :: g in pending.byFd ==> pending.byFd[g] <= all
      modifies this, connections[f], os, pending, all
      ensures Valid()
      ensures connections == old(connections) - {f} && Views() == old(Views()) - {f}
      ensures os.open == old(os.open) - Fds(old(Views()[f])) && os.shut == old(os.shut) - Fds(old(Views()[f]))
      ensures pending.View(all) == L.Cancelled(old(pending.View(all)), old(Views()[f]))
      ensures forall g :: g in pending.byFd ==> pending.byFd[g] <= all
    {
      hide R.Next, R.PendingUringOps.View, L.Cancelled, Fds;
      var conn := connections[f];
      ghost var was := Views();
      connections := connections - {f};
      assert forall g :: g in connections ==> connections[g] != conn && connections[g].View() == was[g];
      conn.DoClose(os, pending, all);
    }

    method CleanupClosedConnections(os: Descriptors, pending: R.PendingUringOps, ghost all: set<R.UringOp>)
      requires Valid() && forall f :: f in pending.byFd ==> pending.byFd[f] <= all
      modifies this, connections.Values, os, pending, all
      ensures Valid()
      ensures Views() == Kept(old(Views()), {})
      ensures forall x :: x in os.open <==> x in old(os.open) && !Reaped(old(Views()), {}, x)
      ensures forall x :: x in os.shut <==> x in old(os.shut) && !Reaped(old(Views()), {}, x)
      ensures Untracked(old(Views()), old(pending.View(all))) ==> pending.View(all) == old(pending.View(all))
    {
      ghost var was, reg, open, shut := Views(), pending.View(all), os.open, os.shut;
      var todo := connections.Keys;
      assert todo == was.Keys;
      assert Kept(was, todo) == was && WithoutReaped(was, todo, open, open) && WithoutReaped(was, todo, shut, shut);
      hide R.Next, R.PendingUringOps.View, L.Cancelled, Kept, WithoutReaped, Untracked, Fds, Views;
      while todo != {}
        invariant Valid() && todo <= was.Keys
        invariant forall f :: f in connections ==> f in old(connections) && connections[f] == old(connections[f])
        invariant Views() == Kept(was, todo)
        invariant WithoutReaped(was, todo, open, os.open) && WithoutReaped(was, todo, shut, os.shut)
        invariant forall f :: f in pending.byFd ==> pending.byFd[f] <= all
        invariant Untracked(was, reg) ==> pending.View(all) == reg
        decreases todo
      {
        SomeElement(todo);
        var f :| f in todo;
        KeptStep(was, todo, f);
        WithoutStep(was, todo, f, open, os.open);
        WithoutStep(was, todo, f, shut, os.shut);
        FiledAs(f, was[f]);
        if connections[f].closed {
          UntrackedCancelsNothing(was, reg, f);
          Erase(f, os, pending, all);
        }
        todo := todo - {f};
      }
      WithoutAll(was, open, os.open);
      WithoutAll(was, shut, os.shut);
    }

    lemma FiledAs(f: int, c: L.Conn)
      requires f in Views() && Views()[f] == c
      ensures f in connections && connections[f].View() == c
    {
    }
  }

  /** What is left once every closed connection outside todo has been erased. */
  function Kept(conns: map<int, L.Conn>, todo: set<int>): map<int, L.Conn> {
    map f | f in conns && (f in todo || !conns[f].closed) :: conns[f]
  }

  /** x belongs to a closed connection outside todo. */
  ghost predicate Reaped(conns: map<int, L.Conn>, todo: set<int>, x: int) {
    exists f :: f in conns && f !in todo && conns[f].closed && x in Fds(conns[f])
  }

  ghost predicate WithoutReaped(conns: map<int, L.Conn>, todo: set<int>, before: set<int>, now: set<int>) {
    forall x :: x in now <==> x in before && !Reaped(conns, todo, x)
  }

  /** No operation is registered on a descriptor of a closed connection. */
  ghost predicate Untracked<K>(conns: map<int, L.Conn>, r: R.Registry<K>) {
    forall f, x :: f in conns && conns[f].closed && x in Fds(conns[f]) ==> x !in r.byFd
  }

  lemma SomeElement(s: set<int>)
    ensures s == {} || exists f :: f in s
  {
    if forall f :: f !in s {
      assert s == {};
    }
  }

  lemma KeptStep(conns: map<int, L.Conn>, todo: set<int>, f: int)
    requires f in todo && f in conns
    ensures f in Kept(conns, todo) && Kept(conns, todo)[f] == conns[f]
    ensures Kept(conns, todo - {f}) == if conns[f].closed then Kept(conns, todo) - {f} else Kept(conns, todo)
  {
  }

  lemma WithoutStep(conns: map<int, L.Conn>, todo: set<int>, f: int, before: set<int>, now: set<int>)
    requires f in todo && f in conns && WithoutReaped(conns, todo, before, now)
    ensures WithoutReaped(conns, todo - {f}, before, if conns[f].closed then now - Fds(conns[f]) else now)
  {
    assert forall g :: g !in todo - {f} <==> g !in todo || g == f;
  }

  lemma WithoutAll(conns: map<int, L.Conn>, before: set<int>, now: set<int>)
    requires WithoutReaped(conns, {}, before, now)
    ensures forall x :: x in now <==> x in before && !Reaped(conns, {}, x)
  {
  }

  lemma UntrackedCancelsNothing<K>(conns: map<int, L.Conn>, r: R.Registry<K>, f: int)
    requires f in conns && conns[f].closed
    ensures Untracked(conns, r) ==> L.Cancelled(r, conns[f]) == r
  {
  }
}
