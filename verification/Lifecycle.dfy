// The life of connections in one event loop: accept, the two coroutines of a connection,
// completions, and the cleanup that reaps closed connections. The same step system covers
// the server's VLESS connections and the client's SOCKS5 CONNECT connections.
//
// Everything is as before EventLoop::stop. The coroutines of one loop run one at a time:
// `running` is the stack of those that are executing (acceptLoop starts a client task, a
// client task starts a target task), and each of the others is suspended on one operation
// or has ended.
module Lifecycle {
  import opened Bytes
  import R = OpRegistry

  datatype Protocol = Vless | Socks5

  datatype Who = Acceptor | Client(fd: int) | Target(fd: int)

  datatype Task = Active | Waiting(op: nat) | Done

  /** How far the client task has come: shaking hands on its own socket; connecting a socket
      only it knows; failed to connect; target fd recorded; target task started. */
  datatype Stage = Setup | Dialing(fd: int) | Failed | Ready | Relaying

  datatype Conn = Conn(
    clientFd: int,
    targetFd: int,
    clientReadDone: bool,
    targetReadDone: bool,
    targetStarted: bool,
    closed: bool,
    stage: Stage,
    finishes: nat)

  datatype Loop = Loop(
    protocol: Protocol,
    listenFd: int,
    conns: map<int, Conn>,        // the live connection objects, by client fd
    mapped: set<int>,             // the keys of connections_
    starting: Option<int>,        // the connection acceptLoop is starting
    tasks: map<Who, Task>,
    running: seq<Who>,
    reg: R.Registry<nat>,
    owner: map<nat, Who>,         // which task submitted an operation
    open: set<int>,               // open descriptors
    shut: set<int>,               // those shut down by the end of a relay
    opens: nat,
    closes: nat,
    fault: bool)                  // closed what was not open, or overwrote a live map entry

  function Started(protocol: Protocol, listenFd: int): Loop {
    Loop(protocol, listenFd, map[], {}, None, map[Acceptor := Active], [Acceptor],
         R.Registry(map[], map[]), map[], {listenFd}, {}, 1, 0, false)
  }

  datatype Event =
    | Cqe(op: nat, res: int)                    // a completion, possibly stale
    | Submit(op: nat, fd: int)                  // the running task suspends on an operation
    | SubmitAborted(op: nat, fd: int, err: int) // no ring or no queue entry: it goes on
    | Accepted(fd: int)                         // acceptLoop makes a connection and starts it
    | Rejected(fd: int)                         // the factory returned null
    | Insert                                    // start() has returned
    | Dial(fd: int)
    | DialFailed
    | DialOk
    | StartTarget
    | FinishClient
    | EndTarget
    | Reap(fd: int)

  // ---- The connection's own steps ----

  /** finishClientTask: the new fields, and the descriptor it shuts down. */
  function Finish(c: Conn): (Conn, set<int>) {
    var d := c.(clientReadDone := true, finishes := c.finishes + 1);
    if !d.targetStarted then (d.(closed := true), {})
    else if !d.targetReadDone && d.targetFd >= 0 then (d, {d.targetFd})
    else (d.(closed := true), {})
  }

  /** The end of targetTask. */
  function TargetEnd(c: Conn): (Conn, set<int>) {
    var d := c.(targetReadDone := true);
    (if d.clientReadDone then d.(closed := true) else d,
     if !d.clientReadDone && d.clientFd >= 0 then {d.clientFd} else {})
  }

  predicate Owns(c: Conn, fd: int) {
    || fd == c.clientFd
    || (c.targetFd >= 0 && fd == c.targetFd)
    || (c.stage.Dialing? && fd == c.stage.fd)
  }

  // ---- Steps of the loop ----

  predicate OnTop(s: Loop, w: Who) {
    s.running != [] && s.running[|s.running| - 1] == w
  }

  function Top(s: Loop): Who
    requires s.running != []
  {
    s.running[|s.running| - 1]
  }

  function Pop(running: seq<Who>): seq<Who>
    requires running != []
  {
    running[..|running| - 1]
  }

  predicate ClientOnTop(s: Loop) {
    s.running != [] && Top(s).Client? && Top(s).fd in s.conns
  }

  predicate TargetOnTop(s: Loop) {
    s.running != [] && Top(s).Target? && Top(s).fd in s.conns
  }

  /** The descriptors the running task may submit an operation on. */
  predicate MayUse(s: Loop, w: Who, fd: int) {
    match w
    case Acceptor => fd == s.listenFd && s.starting.None?
    case Client(f) =>
      f in s.conns &&
      var c := s.conns[f];
      (match c.stage
       case Setup => fd == c.clientFd
       case Dialing(l) => fd == l
       case Failed => s.protocol.Socks5? && fd == c.clientFd
       case Ready => s.protocol.Socks5? && fd == c.clientFd
       case Relaying => fd == c.clientFd || fd == c.targetFd)
    case Target(f) => f in s.conns && (fd == s.conns[f].clientFd || fd == s.conns[f].targetFd)
  }

  predicate Enabled(s: Loop, e: Event) {
    match e
    case Cqe(k, _) => s.running == [] && k in s.reg.ops && k in s.owner
    case Submit(k, fd) => s.running != [] && k !in s.reg.ops && MayUse(s, Top(s), fd)
    case SubmitAborted(k, fd, _) => s.running != [] && k !in s.reg.ops && MayUse(s, Top(s), fd)
    // the operating system hands out descriptors that are not open
    case Accepted(fd) => OnTop(s, Acceptor) && s.starting.None? && fd >= 0 && fd !in s.open
    case Rejected(fd) => OnTop(s, Acceptor) && s.starting.None? && fd >= 0 && fd !in s.open
    case Insert => OnTop(s, Acceptor) && s.starting.Some?
    case Dial(fd) => ClientOnTop(s) && s.conns[Top(s).fd].stage.Setup? && fd >= 0 && fd !in s.open
    case DialFailed => ClientOnTop(s) && s.conns[Top(s).fd].stage.Dialing?
    case DialOk => ClientOnTop(s) && s.conns[Top(s).fd].stage.Dialing?
    case StartTarget => ClientOnTop(s) && s.conns[Top(s).fd].stage.Ready?
    // a VLESS connection starts its target task as soon as the target fd is recorded
    case FinishClient =>
      ClientOnTop(s) && !s.conns[Top(s).fd].stage.Dialing? &&
      (s.conns[Top(s).fd].stage.Ready? ==> s.protocol.Socks5?)
    case EndTarget => TargetOnTop(s)
    case Reap(fd) => s.running == [] && fd in s.mapped && fd in s.conns && s.conns[fd].closed
  }

  function Close(s: Loop, fd: int): Loop {
    s.(open := s.open - {fd}, shut := s.shut - {fd}, closes := s.closes + 1, fault := s.fault || fd !in s.open)
  }

  function OpenFd(s: Loop, fd: int): Loop {
    s.(open := s.open + {fd}, opens := s.opens + 1)
  }

  function WithConn(s: Loop, fd: int, c: Conn): Loop {
    s.(conns := s.conns[fd := c])
  }

  /** The two cancelFd calls of doClose. */
  function Cancelled<K>(reg: R.Registry<K>, c: Conn): R.Registry<K> {
    var reg1 := if c.clientFd >= 0 then R.Next(reg, R.Event<K>.CancelFd(c.clientFd)) else reg;
    if c.targetFd >= 0 then R.Next(reg1, R.Event<K>.CancelFd(c.targetFd)) else reg1
  }

  /** doClose and the erasure from connections_. */
  function Reaped(s: Loop, fd: int): Loop
    requires fd in s.conns
  {
    var c := s.conns[fd];
    var s1 := s.(reg := Cancelled(s.reg, c), conns := s.conns - {fd}, mapped := s.mapped - {fd},
                 tasks := s.tasks - {Client(fd), Target(fd)});
    var s2 := if c.targetFd >= 0 then Close(s1, c.targetFd) else s1;
    Close(s2, c.clientFd)
  }

  function Next(s: Loop, e: Event): Loop
    requires Enabled(s, e)
  {
    match e
    case Cqe(k, res) =>
      var t := s.(reg := R.Next(s.reg, R.Event<nat>.Cqe(k, res)));
      if s.reg.ops[k].armed then t.(tasks := s.tasks[s.owner[k] := Active], running := [s.owner[k]]) else t
    case Submit(k, fd) =>
      s.(reg := R.Next(s.reg, R.Event<nat>.Submit(k, fd)), owner := s.owner[k := Top(s)],
         tasks := s.tasks[Top(s) := Waiting(k)], running := Pop(s.running))
    case SubmitAborted(k, fd, err) =>
      s.(reg := R.Next(R.Next(s.reg, R.Event<nat>.Submit(k, fd)), R.Event<nat>.Abort(k, err)),
         owner := s.owner[k := Top(s)])
    case Accepted(fd) =>
      WithConn(OpenFd(s, fd), fd, Conn(fd, -1, false, false, false, false, Setup, 0))
      .(starting := Some(fd), tasks := s.tasks[Client(fd) := Active], running := s.running + [Client(fd)])
    case Rejected(fd) => Close(OpenFd(s, fd), fd)
    case Insert =>
      s.(mapped := s.mapped + {s.starting.value}, starting := None, fault := s.fault || s.starting.value in s.mapped)
    case Dial(fd) =>
      var f := Top(s).fd;
      WithConn(OpenFd(s, fd), f, s.conns[f].(stage := Dialing(fd)))
    case DialFailed =>
      var f := Top(s).fd;
      WithConn(Close(s, s.conns[f].stage.fd), f, s.conns[f].(stage := Failed))
    case DialOk =>
      var f := Top(s).fd;
      WithConn(s, f, s.conns[f].(targetFd := s.conns[f].stage.fd, stage := Ready))
    case StartTarget =>
      var f := Top(s).fd;
      WithConn(s, f, s.conns[f].(targetStarted := true, stage := Relaying))
      .(tasks := s.tasks[Target(f) := Active], running := s.running + [Target(f)])
    case FinishClient =>
      var f := Top(s).fd;
      var (c, shut) := Finish(s.conns[f]);
      WithConn(s, f, c).(shut := s.shut + shut, tasks := s.tasks[Client(f) := Done], running := Pop(s.running))
    case EndTarget =>
      var f := Top(s).fd;
      var (c, shut) := TargetEnd(s.conns[f]);
      WithConn(s, f, c).(shut := s.shut + shut, tasks := s.tasks[Target(f) := Done], running := Pop(s.running))
    case Reap(fd) => Reaped(s, fd)
  }

  // ---- The invariant ----

  predicate ClientEnded(s: Loop, f: int) {
    Client(f) in s.tasks && s.tasks[Client(f)].Done?
  }

  predicate TargetEnded(s: Loop, f: int) {
    Target(f) in s.tasks && s.tasks[Target(f)].Done?
  }

  /** The flags of a connection say what its tasks have done. */
  predicate FlagsOk(s: Loop, f: int)
    requires f in s.conns
  {
    var c := s.conns[f];
    && c.clientFd == f && f >= 0
    && (c.stage.Dialing? ==> c.stage.fd >= 0)
    && Client(f) in s.tasks
    && (Target(f) in s.tasks <==> c.stage.Relaying?)
    && (c.targetStarted <==> c.stage.Relaying?)
    && (if c.stage.Ready? || c.stage.Relaying? then c.targetFd >= 0 else c.targetFd == -1)
    && (c.clientReadDone <==> ClientEnded(s, f))
    && (c.targetReadDone <==> TargetEnded(s, f))
    && c.finishes == (if ClientEnded(s, f) then 1 else 0)
    && (c.closed <==> ClientEnded(s, f) && (c.targetStarted ==> TargetEnded(s, f)))
    && (ClientEnded(s, f) ==> !c.stage.Dialing?)
    // whichever task ends first has shut down the descriptor that the other one reads
    && (ClientEnded(s, f) && c.targetStarted && !TargetEnded(s, f) ==> c.targetFd in s.shut)
    && (TargetEnded(s, f) && !ClientEnded(s, f) ==> c.clientFd in s.shut)
  }

  ghost predicate Flags(s: Loop) {
    && (forall f :: f in s.conns ==> FlagsOk(s, f))
    && (forall w :: w in s.tasks && !w.Acceptor? ==> w.fd in s.conns)
    && Acceptor in s.tasks && !s.tasks[Acceptor].Done?
  }

  predicate OwnsIn(conns: map<int, Conn>, f: int, x: int) {
    f in conns && Owns(conns[f], x)
  }

  predicate Distinct(c: Conn) {
    c.targetFd != c.clientFd && c.stage != Dialing(c.clientFd)
  }

  /** Every open descriptor but the listening one has exactly one owner, nothing else is
      owned, and the count of closes matches. */
  ghost predicate Ownership(s: Loop) {
    && s.listenFd in s.open
    && (forall f, x :: OwnsIn(s.conns, f, x) ==> x in s.open && x != s.listenFd)
    && (forall f, g, x :: OwnsIn(s.conns, f, x) && OwnsIn(s.conns, g, x) ==> f == g)
    && (forall x :: x in s.open && x != s.listenFd ==> exists f :: OwnsIn(s.conns, f, x))
    && (forall f :: f in s.conns ==> Distinct(s.conns[f]))
    && s.shut <= s.open
    && |s.open| == s.opens - s.closes
    && !s.fault
  }

  predicate Touches(s: Loop, w: Who, fd: int) {
    if w.Acceptor? then fd == s.listenFd else OwnsIn(s.conns, w.fd, fd)
  }

  predicate Armed(s: Loop, k: nat) {
    k in s.reg.ops && s.reg.ops[k].armed
  }

  /** The armed operations are exactly those that suspended tasks wait for, each on a
      descriptor of its task's connection. */
  ghost predicate Operations(s: Loop) {
    && R.Agrees(s.reg)
    && (forall k :: k in s.reg.ops <==> k in s.owner)
    && (forall k :: Armed(s, k) ==>
          s.owner[k] in s.tasks && s.tasks[s.owner[k]] == Waiting(k) && Touches(s, s.owner[k], s.reg.ops[k].fd))
    && (forall w :: w in s.tasks && s.tasks[w].Waiting? ==> Armed(s, s.tasks[w].op) && s.owner[s.tasks[w].op] == w)
  }

  /** Which tasks are executing, and on behalf of which. */
  predicate Shape(running: seq<Who>, starting: Option<int>) {
    if running == [] then starting.None?
    else if running[0].Acceptor? then
      || |running| == 1
      || (|running| == 2 && running[1].Client? && starting == Some(running[1].fd))
      || (|running| == 3 && running[1].Client? && running[2] == Target(running[1].fd)
          && starting == Some(running[1].fd))
    else
      && starting.None?
      && (|running| == 1 || (|running| == 2 && running[0].Client? && running[1] == Target(running[0].fd)))
  }

  ghost predicate Stack(s: Loop) {
    && Shape(s.running, s.starting)
    && (forall w :: w in s.running ==> w in s.tasks)
    && (forall w :: w in s.tasks ==> (s.tasks[w].Active? <==> w in s.running))
    && s.mapped <= s.conns.Keys
    && (forall f :: f in s.conns ==> f in s.mapped || s.starting == Some(f))
    && (s.starting.Some? ==> s.starting.value in s.conns && s.starting.value !in s.mapped)
  }

  ghost predicate Inv(s: Loop) {
    Flags(s) && Ownership(s) && Operations(s) && Stack(s)
  }
}
