/**
 The event server as a state machine. One action is one system call, one callback boundary or one
 thing the outside world does; the outside world may act between any two actions of the server.
 SocketServer (SocketServer.dfy) is the program itself and is proved to take only these actions.
 */
module EventLoop {
  import opened Bytes
  import opened ClientList
  import opened Os

  datatype Cause = ByEof | ByError

  /** What user callbacks observe, and the calls they make to socket_server_disconnect. */
  datatype Event =
    | Connected(e: Entry)
    | Received(e: Entry, data: seq<Byte>)
    | Disconnected(e: Entry, cause: Cause)
    | CloseCall(e: Entry)

  /** Where the server's only thread is. */
  datatype Pc =
    | Starting                   // in on_start
    | Waiting                    // in epoll_wait
    | Dispatching                // between two handlers of a batch
    | Accepting                  // at the accept call
    | Accepted(e: Entry)         // accepted, not yet in the client list
    | Listed(e: Entry)           // in the client list, not yet watched
    | Rejecting(e: Entry)        // about to close a connection that could not be registered
    | InConnection(e: Entry)     // in on_connection
    | Receiving(e: Entry)        // at the recv call
    | InReceived(e: Entry)       // in on_received
    | InDisconnected(e: Entry)   // in on_disconnected
    | Closing(e: Entry)          // out of epoll, about to close and forget
    | Stopping                   // in on_stop

  datatype State = State(
    k: Kernel,
    list: seq<Entry>,
    pc: Pc,
    batch: seq<int>,             // events reported by the last epoll_wait and not dispatched yet
    running: bool,
    log: seq<Event>)

  datatype Action =
    | Env(m: Move)
    | Stop                       // socket_server_stop, from anywhere
    | Disconnect(e: Entry)       // socket_server_disconnect, from inside a callback
    | Begin
    | Wait(fds: seq<int>)
    | WaitInterrupted
    | WaitFailed
    | NextRound
    | Dispatch
    | AcceptEmpty
    | AcceptError
    | AcceptOne(fd: int)
    | Refuse
    | AddClient
    | RejectClose
    | Watch
    | WatchError
    | Return
    | RecvData(n: nat)
    | RecvEof
    | RecvEmpty
    | RecvError
    | Forget

  predicate InCallback(pc: Pc) {
    pc.Starting? || pc.InConnection? || pc.InReceived? || pc.InDisconnected? || pc.Stopping?
  }

  /** In the middle of handling one client. */
  predicate HasEntry(pc: Pc) {
    !(pc.Starting? || pc.Waiting? || pc.Dispatching? || pc.Accepting? || pc.Stopping?)
  }

  /** handle_client is at work on a socket. */
  predicate InClientHandler(pc: Pc) {
    pc.Receiving? || pc.InReceived? || pc.InDisconnected? || pc.Closing?
  }

  predicate Enabled(s: State, a: Action) {
    match a
    case Env(m) => Possible(s.k, m)
    case Stop => true
    case Disconnect(e) => InCallback(s.pc) && e in s.list
    case Begin => s.pc.Starting?
    case Wait(fds) => s.pc.Waiting? && Reportable(s.k, fds)
    case WaitInterrupted => s.pc.Waiting? && s.k.supply > 0
    case WaitFailed => s.pc.Waiting? && s.k.faults.epollWait
    case NextRound => s.pc.Dispatching? && s.batch == []
    case Dispatch => s.pc.Dispatching? && s.batch != []
    case AcceptEmpty => s.pc.Accepting? && Backlog(s.k) == 0
    case AcceptError => s.pc.Accepting? && s.k.faults.accept
    case AcceptOne(fd) => s.pc.Accepting? && CanAccept(s.k, fd)
    case Refuse =>
      s.pc.Accepted? && (s.k.faults.fcntl || s.k.faults.memory || |s.list| >= CLIENT_MAX_CLIENTS)
    case AddClient => s.pc.Accepted? && |s.list| < CLIENT_MAX_CLIENTS
    case RejectClose => s.pc.Rejecting?
    case Watch => s.pc.Listed? && IsOpen(s.k, s.pc.e.fd) && s.pc.e.fd !in s.k.watched
    case WatchError => s.pc.Listed? && s.k.faults.epollCtl
    case Return => s.pc.InConnection? || s.pc.InReceived? || s.pc.InDisconnected?
    case RecvData(n) => s.pc.Receiving? && CanRecv(s.k, s.pc.e.fd, n)
    case RecvEof =>
      && s.pc.Receiving? && IsOpen(s.k, s.pc.e.fd)
      && var c := ConnAt(s.k, s.pc.e.fd); c.buffered == [] && c.eof && !c.reset
    case RecvEmpty =>
      s.pc.Receiving? && IsOpen(s.k, s.pc.e.fd) && !Readable(ConnAt(s.k, s.pc.e.fd))
    case RecvError =>
      && s.pc.Receiving?
      && (s.k.faults.recv || !IsOpen(s.k, s.pc.e.fd) || ConnAt(s.k, s.pc.e.fd).reset)
    case Forget => s.pc.Closing?
  }

  /** Taken by the server itself while it runs a handler. */
  predicate HandlerAction(a: Action) {
    !(a.Env? || a.Stop? || a.Disconnect?)
  }

  function LoopTest(running: bool): Pc {
    if running then Waiting else Stopping
  }

  /** Where the dispatcher goes for one reported descriptor. */
  function HandlerFor(s: State, fd: int): Pc {
    if fd == s.k.listenFd then Accepting
    else match FirstMatch(s.list, fd)
      case None => Dispatching
      case Some(e) => Receiving(e)
  }

  function Apply(s: State, a: Action): State
    requires Enabled(s, a)
  {
    match a
    case Env(m) => s.(k := Happen(s.k, m))
    case Stop => s.(running := false)
    case Disconnect(e) => s.(k := Close(s.k, e.fd), log := s.log + [CloseCall(e)])
    case Begin => s.(pc := LoopTest(s.running))
    case Wait(fds) => s.(k := Report(s.k, fds), pc := Dispatching, batch := fds)
    case WaitInterrupted => s.(k := s.k.(supply := s.k.supply - 1), pc := LoopTest(s.running))
    case WaitFailed => s.(pc := Stopping)
    case NextRound => s.(pc := LoopTest(s.running))
    case Dispatch => s.(pc := HandlerFor(s, s.batch[0]), batch := s.batch[1..])
    case AcceptEmpty => s.(pc := Dispatching)
    case AcceptError => s.(pc := Dispatching)
    case AcceptOne(fd) => s.(k := Accept(s.k, fd), pc := Accepted(Entry(fd, s.k.accepted)))
    case Refuse => s.(pc := Rejecting(s.pc.e))
    case AddClient => s.(list := [s.pc.e] + s.list, pc := Listed(s.pc.e))
    case RejectClose => s.(k := Close(s.k, s.pc.e.fd), pc := Accepting)
    case Watch =>
      s.(k := EpollAdd(s.k, s.pc.e.fd), pc := InConnection(s.pc.e), log := s.log + [Connected(s.pc.e)])
    case WatchError => s.(list := RemoveFirst(s.list, s.pc.e.fd), pc := Rejecting(s.pc.e))
    case Return =>
      if s.pc.InConnection? then s.(pc := Accepting)
      else if s.pc.InReceived? then s.(pc := Receiving(s.pc.e))
      else s.(k := EpollDel(s.k, s.pc.e.fd), pc := Closing(s.pc.e))
    case RecvData(n) =>
      var data := ConnAt(s.k, s.pc.e.fd).buffered[..n];
      s.(k := Recv(s.k, s.pc.e.fd, n), pc := InReceived(s.pc.e), log := s.log + [Received(s.pc.e, data)])
    case RecvEof => s.(pc := InDisconnected(s.pc.e), log := s.log + [Disconnected(s.pc.e, ByEof)])
    case RecvEmpty => s.(pc := Dispatching)
    case RecvError => s.(pc := InDisconnected(s.pc.e), log := s.log + [Disconnected(s.pc.e, ByError)])
    case Forget =>
      s.(k := Close(s.k, s.pc.e.fd), list := RemoveFirst(s.list, s.pc.e.fd), pc := Dispatching)
  }

  /** The server right after socket_server_create and the entry of socket_server_start. */
  ghost predicate Init(s: State) {
    && s.k.conns == [] && s.k.accepted == 0 && s.k.open == map[]
    && s.k.watched == {s.k.listenFd} && s.k.edges == {}
    && s.list == [] && s.pc == Starting && s.batch == [] && s.running && s.log == []
  }

  /** The state after a sequence of actions, if each was enabled when it was taken. */
  ghost function Exec(s0: State, acts: seq<Action>): Option<State> {
    if acts == [] then Some(s0)
    else
      var before := Exec(s0, acts[..|acts| - 1]);
      var a := acts[|acts| - 1];
      if before.Some? && Enabled(before.value, a) then Some(Apply(before.value, a)) else None
  }

  lemma {:induction false} ExecAppend(s0: State, acts: seq<Action>, s: State, a: Action)
    requires Exec(s0, acts) == Some(s) && Enabled(s, a)
    ensures Exec(s0, acts + [a]) == Some(Apply(s, a))
  {
    assert (acts + [a])[..|acts|] == acts;
  }

  /** s is reachable from the freshly created server s0 by acts. */
  ghost predicate Reaches(s0: State, acts: seq<Action>, s: State) {
    Init(s0) && Exec(s0, acts) == Some(s)
  }

  /** One more action on a run from the fresh server. */
  lemma Extend(s0: State, acts: seq<Action>, s: State, a: Action) returns (longer: seq<Action>, t: State)
    requires Reaches(s0, acts, s) && Enabled(s, a)
    ensures Reaches(s0, longer, t) && t == Apply(s, a)
  {
    ExecAppend(s0, acts, s, a);
    longer, t := acts + [a], Apply(s, a);
  }

  /** Some run leads from s to t. */
  ghost predicate Leads(s: State, t: State) {
    exists acts :: Exec(s, acts) == Some(t)
  }

  lemma LeadsByOne(s: State, a: Action)
    requires Enabled(s, a)
    ensures Leads(s, Apply(s, a))
  {
    assert Exec(s, []) == Some(s);
    ExecAppend(s, [], s, a);
  }

  lemma LeadsNowhere(s: State)
    ensures Leads(s, s)
  {
    assert Exec(s, []) == Some(s);
  }

  lemma {:induction false} ExecConcat(s: State, first: seq<Action>, t: State, more: seq<Action>)
    requires Exec(s, first) == Some(t)
    ensures Exec(s, first + more) == Exec(t, more)
  {
    if more == [] {
      assert first + more == first;
    } else {
      assert (first + more)[..|first + more| - 1] == first + more[..|more| - 1];
      ExecConcat(s, first, t, more[..|more| - 1]);
    }
  }

  lemma LeadsThrough(s: State, t: State, u: State)
    requires Leads(s, t) && Leads(t, u)
    ensures Leads(s, u)
  {
    var first :| Exec(s, first) == Some(t);
    var more :| Exec(t, more) == Some(u);
    ExecConcat(s, first, t, more);
  }

  lemma LeadsIsTransitive()
    ensures forall s, t, u {:trigger Leads(s, t), Leads(t, u)} :: Leads(s, t) && Leads(t, u) ==> Leads(s, u)
  {
    forall s, t, u | Leads(s, t) && Leads(t, u)
      ensures Leads(s, u)
    {
      LeadsThrough(s, t, u);
    }
  }

  /** The last action of a non-empty run. */
  lemma LastAction(s0: State, acts: seq<Action>, s: State) returns (prefix: seq<Action>, before: State, a: Action)
    requires acts != [] && Exec(s0, acts) == Some(s)
    ensures acts == prefix + [a] && prefix == acts[..|acts| - 1] && a == acts[|acts| - 1]
    ensures Exec(s0, prefix) == Some(before) && Enabled(before, a) && s == Apply(before, a)
  {
    prefix, a := acts[..|acts| - 1], acts[|acts| - 1];
    before := Exec(s0, prefix).value;
  }

  /** What an action adds to the history. */
  function EventOf(s: State, a: Action): Option<Event>
    requires Enabled(s, a)
  {
    match a
    case Disconnect(e) => Some(CloseCall(e))
    case Watch => Some(Connected(s.pc.e))
    case RecvData(n) => Some(Received(s.pc.e, ConnAt(s.k, s.pc.e.fd).buffered[..n]))
    case RecvEof => Some(Disconnected(s.pc.e, ByEof))
    case RecvError => Some(Disconnected(s.pc.e, ByError))
    case _ => None
  }

  lemma LogEffect(s: State, a: Action)
    requires Enabled(s, a)
    ensures Apply(s, a).log == if EventOf(s, a).Some? then s.log + [EventOf(s, a).value] else s.log
  {
  }

  lemma ListenFdStep(s: State, a: Action)
    requires Enabled(s, a)
    ensures Apply(s, a).k.listenFd == s.k.listenFd && Apply(s, a).k.faults == s.k.faults
  {
  }

  /** Which calls may fail does not change during a run. */
  lemma {:induction false} FaultsStay(s0: State, acts: seq<Action>, s: State)
    requires Exec(s0, acts) == Some(s)
    ensures s.k.faults == s0.k.faults
  {
    if acts != [] {
      var prefix, before, a := LastAction(s0, acts, s);
      FaultsStay(s0, prefix, before);
      ListenFdStep(before, a);
    }
  }

  lemma ListEffect(s: State, a: Action)
    requires Enabled(s, a)
    ensures Apply(s, a).list ==
            if a.AddClient? then [s.pc.e] + s.list
            else if a.WatchError? || a.Forget? then RemoveFirst(s.list, s.pc.e.fd)
            else s.list
  {
  }

  /** Number of calls to socket_server_disconnect so far. */
  function CloseCalls(log: seq<Event>): nat {
    if log == [] then 0
    else CloseCalls(log[..|log| - 1]) + if log[|log| - 1].CloseCall? then 1 else 0
  }

  lemma {:induction false} CloseCallsStep(log: seq<Event>, ev: Event)
    ensures CloseCalls(log + [ev]) == CloseCalls(log) + if ev.CloseCall? then 1 else 0
  {
    assert (log + [ev])[..|log|] == log;
  }
}
