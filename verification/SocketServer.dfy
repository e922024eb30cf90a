/**
 The event server as a program: handlers, event loop and callbacks over the linked client list. The
 operating system is the field k, changed by the Sys methods and by Interfere, in which the outside
 world does anything it can before every system call; which calls may fail on their own account is
 fixed by faults. The five On methods are the user's callbacks: each appends itself, with its
 arguments, to calls and runs UserCode, which may disconnect any client and stop the server.

 The ghost field st is the state of the state machine that stands for the object: Valid says that the
 real fields agree with it, that some run leads to it from the initial state s0, and that the callbacks
 made are exactly those of this run; so everything proved about runs (Agreement, Stale, Wakeups,
 Batches, History, Progress, Departures, Leaks, Service) holds of the program.
 */
module SocketServer {
  import opened Bytes
  import opened ClientList
  import opened ClientManagement
  import opened Os
  import opened EventLoop
  import opened Agreement
  import opened History
  import opened Progress
  import opened Service
  import opened Callbacks

  /** A list node as the state machine knows it. */
  ghost function EntryOf(client: ClientNode): Entry {
    Entry(client.fd, client.conn)
  }

  class Server {
    const listenFd: int
    const faults: Faults
    const address: nat -> int    // the peer's address, by connection
    const mgr: ClientManager
    const events: array<int>
    var running: bool
    var k: Kernel
    ghost var calls: seq<Call>
    ghost const s0: State
    ghost var st: State

    /** The operating system and the running flag are as the recorded run left them. */
    ghost predicate Sound()
      reads this
    {
      && events.Length == EPOLL_MAX_EVENTS
      && k.listenFd == listenFd && k.faults == faults
      && st.k == k && st.running == running
      && Init(s0) && Leads(s0, st)
    }

    /** And so is the client list. */
    ghost predicate Linked()
      reads this, mgr, mgr.Repr
    {
      Sound() && mgr.Valid() && st.list == mgr.Entries()
    }

    /** Every callback of the run has been made, in order and with its arguments. */
    ghost predicate Told()
      reads this
    {
      calls == CallsOf(st.log)
    }

    /** All but the last, which is due now. */
    ghost predicate Due(c: Call)
      reads this
    {
      calls + [c] == CallsOf(st.log)
    }

    ghost predicate Valid()
      reads this, mgr, mgr.Repr
    {
      Linked() && Told()
    }

    /** As socket_server_create leaves it: nothing has happened yet and the loop is not running. */
    ghost predicate Created()
      reads this, mgr, mgr.Repr
    {
      && mgr.Valid()
      && events.Length == EPOLL_MAX_EVENTS
      && k.listenFd == listenFd && k.faults == faults
      && Init(s0) && st == s0
      && st.k == k && st.list == mgr.Entries() && !running
      && calls == []
    }

    constructor (listenFd: int, faults: Faults, supply: nat, address: nat -> int)
      ensures Created() && this.listenFd == listenFd && this.faults == faults && k.supply == supply
      ensures this.address == address
      ensures fresh(mgr) && fresh(events)
    {
      this.listenFd, this.faults, this.address := listenFd, faults, address;
      var m := new ClientManager();
      mgr := m;
      events := new int[EPOLL_MAX_EVENTS](_ => 0);
      running := false;
      var kernel := Kernel(faults, listenFd, [], 0, map[], {listenFd}, {}, supply);
      k := kernel;
      var start := State(kernel, [], Starting, [], true, []);
      s0, st, calls := start, start, [];
    }

    /** Files one action, already carried out on the real fields, under the run. */
    ghost method Record(s: State, a: Action)
      requires events.Length == EPOLL_MAX_EVENTS
      requires Init(s0) && Leads(s0, s) && Enabled(s, a)
      requires s.k.listenFd == listenFd && s.k.faults == faults
      requires k == Apply(s, a).k && running == Apply(s, a).running
      modifies this`st
      ensures Sound() && st == Apply(s, a) && Leads(s, st)
      ensures Potential(st) <= Potential(s)
      ensures a.Wait? || a.WaitInterrupted? ==> Potential(st) < Potential(s)
      ensures InHandler(s.pc) ==> HandlerSteps(st) <= HandlerSteps(s) - if HandlerAction(a) then 1 else 0
    {
      var acts :| Exec(s0, acts) == Some(s);
      StructureAlways(s0, acts, s);
      PotentialStep(s, a);
      if InHandler(s.pc) {
        HandlerStepsStep(s, a);
      }
      LeadsByOne(s, a);
      LeadsThrough(s0, s, Apply(s, a));
      ListenFdStep(s, a);
      st := Apply(s, a);
    }

    // ----- the world outside -----

    /** Any number of arrivals, ends, resets, spurious wake-ups and calls to socket_server_stop. */
    method Interfere()
      requires Sound()
      modifies this`k, this`running, this`st
      ensures Sound() && Leads(old(st), st) && st.list == old(st.list)
      ensures st.pc == old(st.pc) && st.batch == old(st.batch) && st.log == old(st.log)
      ensures k.open == old(k.open) && k.watched == old(k.watched) && k.accepted == old(k.accepted)
      ensures running ==> old(running)
      ensures Potential(st) <= Potential(old(st))
      ensures HandlerSteps(st) <= HandlerSteps(old(st))
    {
      LeadsNowhere(st);
      LeadsIsTransitive();
      var moves: nat := *;
      while moves > 0
        invariant Sound() && Leads(old(st), st) && st.list == old(st.list)
        invariant st.pc == old(st.pc) && st.batch == old(st.batch) && st.log == old(st.log)
        invariant k.open == old(k.open) && k.watched == old(k.watched) && k.accepted == old(k.accepted)
        invariant running ==> old(running)
        invariant Potential(st) <= Potential(old(st))
        invariant HandlerSteps(st) <= HandlerSteps(old(st))
        decreases moves
      {
        var m: Move := *;
        var stop: bool := *;
        ghost var s := st;
        if stop {
          SocketServerStop();
        } else if Possible(k, m) {
          k := Happen(k, m);
          Record(s, Env(m));
        }
        moves := moves - 1;
      }
    }

    method SocketServerStop()
      requires Sound()
      modifies this`running, this`st
      ensures Sound() && !running && st == old(st).(running := false) && Leads(old(st), st)
      ensures Potential(st) <= Potential(old(st))
      ensures HandlerSteps(st) <= HandlerSteps(old(st))
    {
      LeadsIsTransitive();
      ghost var s := st;
      running := false;
      Record(s, Stop);
    }

    method SocketServerDisconnect(client: ClientNode?)
      requires Sound() && InCallback(st.pc)
      requires client != null ==> Entry(client.fd, client.conn) in st.list
      modifies this`k, this`st
      ensures Sound() && Leads(old(st), st) && st.list == old(st.list)
      ensures st.pc == old(st.pc) && st.batch == old(st.batch)
      ensures k == if client == null then old(k) else Close(old(k), client.fd)
      ensures st.log == if client == null then old(st.log) else old(st.log) + [CloseCall(Entry(client.fd, client.conn))]
      ensures CallsOf(st.log) == CallsOf(old(st.log))
      ensures Potential(st) <= Potential(old(st))
      ensures HandlerSteps(st) <= HandlerSteps(old(st))
    {
      LeadsIsTransitive();
      if client == null {
        LeadsNowhere(st);
        return;
      }
      ghost var s := st;
      k := Close(k, client.fd);
      CallsStep(st.log, CloseCall(Entry(client.fd, client.conn)));
      Record(s, Disconnect(Entry(client.fd, client.conn)));
    }

    // ----- callbacks -----

    /** The body of a callback: disconnects clients and stops the server as it likes, while the world goes on. */
    method UserCode()
      requires Linked() && InCallback(st.pc)
      modifies this`k, this`running, this`st
      ensures Linked() && Leads(old(st), st) && st.pc == old(st.pc) && st.batch == old(st.batch)
      ensures old(st.log) <= st.log && CallsOf(st.log) == CallsOf(old(st.log))
      ensures running ==> old(running)
      ensures Potential(st) <= Potential(old(st))
      ensures HandlerSteps(st) <= HandlerSteps(old(st))
    {
      LeadsNowhere(st);
      LeadsIsTransitive();
      var actions: nat := *;
      while actions > 0
        invariant Linked() && Leads(old(st), st) && st.pc == old(st.pc) && st.batch == old(st.batch)
        invariant old(st.log) <= st.log && CallsOf(st.log) == CallsOf(old(st.log))
        invariant running ==> old(running)
        invariant Potential(st) <= Potential(old(st))
        invariant HandlerSteps(st) <= HandlerSteps(old(st))
        decreases actions
      {
        Interfere();
        DisconnectSomeone();
        actions := actions - 1;
      }
      Interfere();
    }

    /** User code disconnects any client, or none. */
    method DisconnectSomeone()
      requires Linked() && InCallback(st.pc)
      modifies this`k, this`st
      ensures Linked() && Leads(old(st), st) && st.pc == old(st.pc) && st.batch == old(st.batch)
      ensures old(st.log) <= st.log && CallsOf(st.log) == CallsOf(old(st.log))
      ensures Potential(st) <= Potential(old(st))
      ensures HandlerSteps(st) <= HandlerSteps(old(st))
    {
      var client := mgr.AnyClient();
      SocketServerDisconnect(client);
    }

    method OnStart()
      requires Linked() && st.pc.Starting? && calls == [] && CallsOf(st.log) == [StartCall]
      modifies this`k, this`running, this`st, this`calls
      ensures Valid() && Leads(old(st), st) && st.pc == old(st.pc) && st.batch == old(st.batch)
      ensures running ==> old(running)
      ensures Potential(st) <= Potential(old(st))
    {
      calls := [StartCall];
      UserCode();
    }

    method OnConnection(client: ClientNode)
      requires Linked() && st.pc == InConnection(EntryOf(client)) && Due(ConnectionCall(EntryOf(client)))
      modifies this`k, this`running, this`st, this`calls
      ensures Valid() && Leads(old(st), st) && st.pc == old(st.pc) && st.batch == old(st.batch)
      ensures calls == old(calls) + [ConnectionCall(EntryOf(client))] && old(st.log) <= st.log
      ensures Potential(st) <= Potential(old(st))
      ensures HandlerSteps(st) <= HandlerSteps(old(st))
    {
      calls := calls + [ConnectionCall(EntryOf(client))];
      UserCode();
    }

    method OnReceived(client: ClientNode, buffer: array<Byte>, n: nat)
      requires n <= buffer.Length
      requires Linked() && st.pc == InReceived(EntryOf(client)) && Due(ReceivedCall(EntryOf(client), buffer[..n]))
      modifies this`k, this`running, this`st, this`calls
      ensures Valid() && Leads(old(st), st) && st.pc == old(st.pc) && st.batch == old(st.batch)
      ensures calls == old(calls) + [ReceivedCall(EntryOf(client), buffer[..n])] && old(st.log) <= st.log
      ensures Potential(st) <= Potential(old(st))
      ensures HandlerSteps(st) <= HandlerSteps(old(st))
    {
      calls := calls + [ReceivedCall(EntryOf(client), buffer[..n])];
      UserCode();
    }

    method OnDisconnected(client: ClientNode)
      requires Linked() && st.pc == InDisconnected(EntryOf(client)) && Due(DisconnectedCall(EntryOf(client)))
      modifies this`k, this`running, this`st, this`calls
      ensures Valid() && Leads(old(st), st) && st.pc == old(st.pc) && st.batch == old(st.batch)
      ensures calls == old(calls) + [DisconnectedCall(EntryOf(client))] && old(st.log) <= st.log
      ensures Potential(st) <= Potential(old(st))
      ensures HandlerSteps(st) <= HandlerSteps(old(st))
    {
      calls := calls + [DisconnectedCall(EntryOf(client))];
      UserCode();
    }

    method OnStop()
      requires Valid() && st.pc.Stopping?
      modifies this`k, this`running, this`st, this`calls
      ensures Linked() && Leads(old(st), st) && st.pc == old(st.pc)
      ensures calls == CallsOf(st.log) + [StopCall]
      ensures running ==> old(running)
    {
      calls := calls + [StopCall];
      UserCode();
    }

    /** on_connection or on_received is over. */
    ghost method Returned()
      requires Sound() && (st.pc.InConnection? || st.pc.InReceived?)
      modifies this`st
      ensures Sound() && Leads(old(st), st) && st.list == old(st.list) && st.batch == old(st.batch)
      ensures st.log == old(st.log)
      ensures st.pc == if old(st.pc).InConnection? then Accepting else Receiving(old(st.pc.e))
      ensures Potential(st) <= Potential(old(st))
      ensures HandlerSteps(st) < HandlerSteps(old(st))
    {
      Record(st, Return);
    }

    /** The next event of the batch goes to its handler. */
    ghost method Dispatched()
      requires Sound() && st.pc == Dispatching && st.batch != []
      modifies this`st
      ensures Sound() && Leads(old(st), st) && st.list == old(st.list) && st.batch == old(st.batch)[1..]
      ensures st.log == old(st.log)
      ensures var fd := old(st).batch[0];
              && st.pc == HandlerFor(old(st), fd)
              && (fd != listenFd && FirstMatch(st.list, fd).None? ==> !IsOpen(k, fd))
      ensures Potential(st) <= Potential(old(st))
    {
      var acts :| Exec(s0, acts) == Some(st);
      StructureAlways(s0, acts, st);
      Record(st, Dispatch);
    }

    /** The loop of socket_server_start looks at running and goes on or leaves. */
    ghost method LoopTested(a: Action)
      requires Sound() && Enabled(st, a) && (a.Begin? || a.NextRound?)
      modifies this`st
      ensures Sound() && Leads(old(st), st) && st.list == old(st.list) && st.log == old(st.log)
      ensures st.pc == LoopTest(running)
      ensures Potential(st) <= Potential(old(st))
    {
      Record(st, a);
    }

    // ----- system calls -----

    /** accept: a descriptor and the peer's address, or -1, on EAGAIN with an empty backlog. */
    method SysAccept() returns (fd: int, addr: int, again: bool)
      requires Sound() && st.pc.Accepting?
      modifies this`k, this`running, this`st
      ensures Sound() && Leads(old(st), st) && st.list == old(st.list) && st.batch == old(st.batch)
      ensures st.log == old(st.log)
      ensures fd == -1 ==> st.pc == Dispatching && if again then Backlog(k) == 0 else faults.accept
      ensures fd != -1 ==> st.pc.Accepted? && st.pc.e.fd == fd && HandlerSteps(st) < HandlerSteps(old(st))
      ensures fd != -1 ==> addr == address(st.pc.e.conn)
      ensures Potential(st) <= Potential(old(st))
    {
      LeadsIsTransitive();
      Interfere();
      ghost var s := st;
      fd, addr := *, *;
      var fail: bool := *;
      if Backlog(k) == 0 {
        Record(s, AcceptEmpty);
        return -1, addr, true;
      }
      if fail && faults.accept {
        Record(s, AcceptError);
        return -1, addr, false;
      }
      SomeFdIsFree(k);
      if !CanAccept(k, fd) {
        fd := LowestFree(k.open.Keys + {k.listenFd}, 0);
      }
      addr, again := address(k.accepted), false;
      k := Accept(k, fd);
      Record(s, AcceptOne(fd));
    }

    /** Failure leads to the close; success leads to client_manager_add in the same breath. */
    method SysSetNonblocking(fd: int) returns (ok: bool)
      requires Sound() && st.pc.Accepted?
      modifies this`k, this`running, this`st
      ensures Sound() && Leads(old(st), st) && st.list == old(st.list) && st.batch == old(st.batch)
      ensures st.log == old(st.log)
      ensures st.pc == if ok then old(st.pc) else Rejecting(old(st.pc.e))
      ensures !ok ==> faults.fcntl
      ensures Potential(st) <= Potential(old(st))
      ensures HandlerSteps(st) <= HandlerSteps(old(st))
    {
      LeadsIsTransitive();
      Interfere();
      ok := *;
      ok := ok || !faults.fcntl;
      if !ok {
        ghost var s := st;
        Record(s, Refuse);
      }
    }

    /** close on a connection that was not registered. */
    method CloseRejected(fd: int)
      requires Valid() && st.pc.Rejecting? && st.pc.e.fd == fd
      modifies this`k, this`running, this`st
      ensures Valid() && Leads(old(st), st) && st.batch == old(st.batch)
      ensures mgr.Entries() == old(mgr.Entries()) && st.pc == Accepting && fd !in k.open
      ensures Potential(st) <= Potential(old(st))
      ensures HandlerSteps(st) < HandlerSteps(old(st))
    {
      LeadsIsTransitive();
      Interfere();
      ghost var s := st;
      k := Close(k, fd);
      Record(s, RejectClose);
    }

    /** EPOLL_CTL_ADD for a new client; on success on_connection is due. */
    method SysEpollAdd(fd: int) returns (ok: bool)
      requires Sound() && st.pc.Listed? && st.pc.e.fd == fd
      modifies this`k, this`running, this`st
      ensures Sound() && Leads(old(st), st) && st.list == old(st.list) && st.batch == old(st.batch)
      ensures st.pc == if ok then InConnection(old(st.pc.e)) else old(st.pc)
      ensures st.log == if ok then old(st.log) + [Connected(old(st.pc.e))] else old(st.log)
      ensures ok ==> CallsOf(st.log) == CallsOf(old(st.log)) + [ConnectionCall(old(st.pc.e))]
      ensures !ok ==> faults.epollCtl
      ensures Potential(st) <= Potential(old(st))
      ensures HandlerSteps(st) <= HandlerSteps(old(st)) && (ok ==> HandlerSteps(st) < HandlerSteps(old(st)))
    {
      LeadsIsTransitive();
      Interfere();
      var fail: bool := *;
      if fail && faults.epollCtl {
        return false;
      }
      ghost var s := st;
      NewSocketCanBeWatched();
      k := EpollAdd(k, fd);
      Record(s, Watch);
      CallsStep(old(st.log), Connected(old(st.pc.e)));
      return true;
    }

    /** A listed client's socket is open and not watched yet. */
    lemma NewSocketCanBeWatched()
      requires Sound() && st.pc.Listed?
      ensures IsOpen(k, st.pc.e.fd) && st.pc.e.fd !in k.watched
    {
      var acts :| Exec(s0, acts) == Some(st);
      StructureAlways(s0, acts, st);
    }

    /** EPOLL_CTL_DEL after on_disconnected. */
    method SysEpollDel(fd: int)
      requires Sound() && st.pc.InDisconnected? && st.pc.e.fd == fd
      modifies this`k, this`running, this`st
      ensures Sound() && Leads(old(st), st) && st.list == old(st.list) && st.batch == old(st.batch)
      ensures st.pc == Closing(old(st.pc.e)) && st.log == old(st.log)
      ensures Potential(st) <= Potential(old(st))
    {
      LeadsIsTransitive();
      Interfere();
      ghost var s := st;
      k := EpollDel(k, fd);
      Record(s, Return);
    }

    /** recv into the caller's buffer: n > 0 bytes, 0 at the end of the stream, -1 on EAGAIN or an error. */
    method SysRecv(fd: int, buffer: array<Byte>) returns (n: int, again: bool)
      requires Sound() && st.pc.Receiving? && st.pc.e.fd == fd && buffer.Length == 1024
      modifies this`k, this`running, this`st, buffer
      ensures Sound() && Leads(old(st), st) && st.list == old(st.list) && st.batch == old(st.batch)
      ensures -1 <= n <= BUFFER_SIZE
      ensures n > 0 ==>
                st.pc == InReceived(old(st.pc.e)) && st.log == old(st.log) + [Received(old(st.pc.e), buffer[..n])]
      ensures n > 0 ==> CallsOf(st.log) == CallsOf(old(st.log)) + [ReceivedCall(old(st.pc.e), buffer[..n])]
      ensures n == 0 ==> !again
      ensures n == 0 ==>
                st.pc == InDisconnected(old(st.pc.e)) && st.log == old(st.log) + [Disconnected(old(st.pc.e), ByEof)]
      ensures n <= 0 && !again ==>
                && SaidGoodbye(st.log, old(st.pc.e))
                && CallsOf(st.log) == CallsOf(old(st.log)) + [DisconnectedCall(old(st.pc.e))]
      ensures n == -1 && again ==>
                st.pc == Dispatching && st.log == old(st.log) && IsOpen(k, fd) && !Readable(ConnAt(k, fd))
      ensures n == -1 && !again ==>
                st.pc == InDisconnected(old(st.pc.e)) && st.log == old(st.log) + [Disconnected(old(st.pc.e), ByError)]
      ensures n == -1 && !again ==> faults.recv || !IsOpen(k, fd) || ConnAt(k, fd).reset
      ensures Potential(st) <= Potential(old(st))
      ensures HandlerSteps(st) < HandlerSteps(old(st))
    {
      LeadsIsTransitive();
      Interfere();
      ghost var s := st;
      var fail: bool := *;
      if (fail && faults.recv) || !IsOpen(k, fd) || ConnAt(k, fd).reset {
        Over(ByError);
        return -1, false;
      }
      var c := ConnAt(k, fd);
      if c.buffered == [] && !c.eof {
        Record(s, RecvEmpty);
        return -1, true;
      }
      if c.buffered == [] {
        Over(ByEof);
        return 0, false;
      }
      n := *;
      if !(1 <= n <= Min(BUFFER_SIZE, |c.buffered|)) {
        n := Min(BUFFER_SIZE, |c.buffered|);
      }
      again := false;
      CopyOut(fd, n, buffer);
    }

    /** recv reported an end of stream or an error: on_disconnected is due. */
    ghost method Over(cause: Cause)
      requires Sound() && Enabled(st, if cause == ByEof then RecvEof else RecvError)
      modifies this`st
      ensures Sound() && Leads(old(st), st) && st.list == old(st.list) && st.batch == old(st.batch)
      ensures st.pc == InDisconnected(old(st.pc.e)) && st.log == old(st.log) + [Disconnected(old(st.pc.e), cause)]
      ensures SaidGoodbye(st.log, old(st.pc.e))
      ensures CallsOf(st.log) == CallsOf(old(st.log)) + [DisconnectedCall(old(st.pc.e))]
      ensures Potential(st) <= Potential(old(st))
      ensures HandlerSteps(st) < HandlerSteps(old(st))
    {
      Record(st, if cause == ByEof then RecvEof else RecvError);
      CallsStep(old(st.log), Disconnected(old(st.pc.e), cause));
    }

    /** The successful recv: the first n buffered bytes move into the caller's buffer. */
    method CopyOut(fd: int, n: nat, buffer: array<Byte>)
      requires Sound() && st.pc.Receiving? && st.pc.e.fd == fd && buffer.Length == BUFFER_SIZE && CanRecv(k, fd, n)
      modifies this`k, this`running, this`st, buffer
      ensures Sound() && Leads(old(st), st) && st.list == old(st.list) && st.batch == old(st.batch)
      ensures st.pc == InReceived(old(st.pc.e)) && st.log == old(st.log) + [Received(old(st.pc.e), buffer[..n])]
      ensures CallsOf(st.log) == CallsOf(old(st.log)) + [ReceivedCall(old(st.pc.e), buffer[..n])]
      ensures buffer[..n] == ConnAt(old(k), fd).buffered[..n]
      ensures Potential(st) <= Potential(old(st))
      ensures HandlerSteps(st) < HandlerSteps(old(st))
    {
      LeadsIsTransitive();
      ghost var s := st;
      var c := ConnAt(k, fd);
      forall i | 0 <= i < n {
        buffer[i] := c.buffered[i];
      }
      assert buffer[..n] == c.buffered[..n];
      k := Recv(k, fd, n);
      Record(s, RecvData(n));
      CallsStep(old(st.log), Received(old(st.pc.e), buffer[..n]));
    }

    /** epoll_wait without a timeout. parked: the world stays quiet and the call never returns. */
    method SysEpollWait() returns (nfds: int, interrupted: bool, parked: bool)
      requires Sound() && st.pc == Waiting
      modifies this`k, this`running, this`st, events
      ensures Sound() && Leads(old(st), st) && st.list == old(st.list) && st.log == old(st.log)
      ensures parked ==> AtRest(st)
      ensures !parked && nfds == -1 ==> if interrupted then st.pc == LoopTest(running)
                                        else st.pc == Stopping && faults.epollWait
      ensures !parked && nfds != -1 ==> 1 <= nfds <= 64 && st.pc == Dispatching && st.batch == events[..nfds]
      ensures Potential(st) <= Potential(old(st))
      ensures !parked && (nfds != -1 || interrupted) ==> Potential(st) < Potential(old(st))
    {
      LeadsIsTransitive();
      Interfere();
      ghost var s := st;
      interrupted, parked := false, false;
      var ready: seq<int> := *;
      var fail: bool := *;
      interrupted := *;
      if interrupted && k.supply > 0 {
        k := k.(supply := k.supply - 1);
        Record(s, WaitInterrupted);
        return -1, true, false;
      }
      if fail && faults.epollWait {
        Record(s, WaitFailed);
        return -1, false, false;
      }
      if k.edges == {} {
        return 0, false, true;
      }
      if !Reportable(k, ready) {
        var fd := SomeEdge();
        ready := [fd];
      }
      interrupted := false;
      nfds := ReportReady(ready);
    }

    lemma SomeMember(s: set<int>)
      requires s != {}
      ensures exists x :: x in s
    {
      assert (forall x :: x !in s) ==> s == {};
    }

    /** Some edge that is waiting to be reported. */
    method SomeEdge() returns (fd: int)
      requires k.edges != {}
      ensures fd in k.edges && Reportable(k, [fd])
    {
      SomeMember(k.edges);
      fd :| fd in k.edges;
    }

    /** The events array is filled with the edges epoll_wait reports. */
    method ReportReady(ready: seq<int>) returns (nfds: int)
      requires Sound() && st.pc == Waiting && Reportable(k, ready)
      modifies this`k, this`running, this`st, events
      ensures Sound() && Leads(old(st), st) && st.list == old(st.list) && st.log == old(st.log)
      ensures 1 <= nfds == |ready| <= events.Length && st.pc == Dispatching && st.batch == events[..nfds] == ready
      ensures Potential(st) < Potential(old(st))
    {
      nfds := |ready|;
      forall i | 0 <= i < nfds {
        events[i] := ready[i];
      }
      assert events[..nfds] == ready;
      ghost var s := st;
      k := Report(k, ready);
      Record(s, Wait(ready));
    }

    // ----- the handlers -----

    method HandleAccept() returns (ghost drained: bool)
      requires Valid() && st.pc == Accepting
      modifies this, mgr, mgr.Repr`next
      ensures Valid() && Leads(old(st), st) && st.pc == Dispatching && st.batch == old(st.batch)
      ensures fresh(mgr.Repr - old(mgr.Repr))
      ensures if drained then Backlog(k) == 0 else faults.accept
      ensures Potential(st) <= Potential(old(st))
    {
      LeadsNowhere(st);
      LeadsIsTransitive();
      while true
        invariant Valid() && Leads(old(st), st) && st.pc == Accepting && st.batch == old(st.batch)
        invariant fresh(mgr.Repr - old(mgr.Repr))
        invariant Potential(st) <= Potential(old(st))
        decreases HandlerSteps(st)
      {
        var clientFd, addr, again := SysAccept();
        if clientFd == -1 {
          return again;         // EAGAIN and every other error leave the loop alike
        }
        var _ := HandleAccepted(clientFd, addr);
      }
    }

    /** One round of the accept loop, after the accept. */
    method HandleAccepted(clientFd: int, addr: int) returns (registered: bool)
      requires Valid() && st.pc.Accepted? && st.pc.e.fd == clientFd && addr == address(st.pc.e.conn)
      modifies this, mgr, mgr.Repr`next
      ensures Valid() && Leads(old(st), st) && st.pc == Accepting && st.batch == old(st.batch)
      ensures fresh(mgr.Repr - old(mgr.Repr))
      ensures registered ==>
                && mgr.Entries() == [old(st.pc.e)] + old(mgr.Entries()) && mgr.nodes[0].addr == addr
                && calls == old(calls) + [ConnectionCall(old(st.pc.e))]
      ensures !registered ==> mgr.Entries() == old(mgr.Entries()) && clientFd !in k.open && calls == old(calls)
      ensures registered ==> |old(mgr.Entries())| < 1000
      ensures !registered ==> faults.fcntl || faults.memory || faults.epollCtl || |old(mgr.Entries())| >= 1000
      ensures Potential(st) <= Potential(old(st))
      ensures HandlerSteps(st) < HandlerSteps(old(st))
    {
      LeadsIsTransitive();
      var nonblocking := SysSetNonblocking(clientFd);
      if !nonblocking {
        CloseRejected(clientFd);
        return false;
      }
      registered := RegisterAccepted(clientFd, addr);
    }

    /** From client_manager_add on. */
    method RegisterAccepted(clientFd: int, addr: int) returns (registered: bool)
      requires Valid() && st.pc.Accepted? && st.pc.e.fd == clientFd
      modifies this, mgr, mgr.Repr`next
      ensures Valid() && Leads(old(st), st) && st.pc == Accepting && st.batch == old(st.batch)
      ensures fresh(mgr.Repr - old(mgr.Repr))
      ensures registered ==>
                && mgr.Entries() == [old(st.pc.e)] + old(mgr.Entries()) && mgr.nodes[0].addr == addr
                && calls == old(calls) + [ConnectionCall(old(st.pc.e))]
      ensures !registered ==> mgr.Entries() == old(mgr.Entries()) && clientFd !in k.open && calls == old(calls)
      ensures registered ==> |old(mgr.Entries())| < 1000
      ensures !registered ==> faults.memory || faults.epollCtl || |old(mgr.Entries())| >= 1000
      ensures Potential(st) <= Potential(old(st))
      ensures HandlerSteps(st) < HandlerSteps(old(st))
    {
      LeadsIsTransitive();
      var client := AddAccepted(clientFd, addr);
      if client == null {
        CloseRejected(clientFd);
        return false;
      }
      registered := WatchClient(client, old(mgr.Entries()));
    }

    /** client_manager_add for an accepted socket. */
    method AddAccepted(clientFd: int, addr: int) returns (client: ClientNode?)
      requires Valid() && st.pc.Accepted? && st.pc.e.fd == clientFd
      modifies this`st, mgr
      ensures Valid() && Leads(old(st), st)
      ensures st.batch == old(st.batch)
      ensures client != null ==>
                && EntryOf(client) == old(st.pc.e) && client.addr == addr && mgr.nodes == [client] + old(mgr.nodes)
                && st.pc == Listed(old(st.pc.e)) && mgr.Entries() == [old(st.pc.e)] + old(mgr.Entries())
                && |old(mgr.Entries())| < 1000
      ensures client == null ==>
                && st.pc == Rejecting(old(st.pc.e)) && mgr.Entries() == old(mgr.Entries())
                && (faults.memory || |old(mgr.Entries())| >= 1000)
      ensures fresh(mgr.Repr - old(mgr.Repr))
      ensures Potential(st) <= Potential(old(st))
      ensures HandlerSteps(st) < HandlerSteps(old(st))
    {
      var mallocFails: bool := *;
      client := mgr.Add(clientFd, addr, mallocFails && faults.memory, st.pc.e.conn);
      if client != null {
        Enlisted();
      } else {
        TurnedAway();
      }
    }

    /** The accepted connection has been added to the client list. */
    ghost method Enlisted()
      requires Sound() && st.pc.Accepted? && |st.list| < CLIENT_MAX_CLIENTS
      modifies this`st
      ensures Sound() && Leads(old(st), st) && st.pc == Listed(old(st.pc.e)) && st.list == [old(st.pc.e)] + old(st.list)
      ensures st.batch == old(st.batch) && st.log == old(st.log)
      ensures Potential(st) <= Potential(old(st))
      ensures HandlerSteps(st) < HandlerSteps(old(st))
    {
      Record(st, AddClient);
    }

    /** The accepted connection could not be added. */
    ghost method TurnedAway()
      requires Sound() && st.pc.Accepted?
      requires faults.fcntl || faults.memory || |st.list| >= CLIENT_MAX_CLIENTS
      modifies this`st
      ensures Sound() && Leads(old(st), st) && st.pc == Rejecting(old(st.pc.e)) && st.list == old(st.list)
      ensures st.batch == old(st.batch) && st.log == old(st.log)
      ensures Potential(st) <= Potential(old(st))
      ensures HandlerSteps(st) < HandlerSteps(old(st))
    {
      Record(st, Refuse);
    }

    /** epoll_handler_add for a listed client, with its failure path, and on_connection. */
    method WatchClient(client: ClientNode, ghost others: seq<Entry>) returns (watched: bool)
      requires Valid() && st.pc == Listed(EntryOf(client)) && mgr.Entries() == [EntryOf(client)] + others
      modifies this, mgr, mgr.Repr`next
      ensures Valid() && Leads(old(st), st) && st.pc == Accepting && st.batch == old(st.batch)
      ensures mgr.Repr == old(mgr.Repr)
      ensures watched ==>
                && mgr.nodes == old(mgr.nodes) && mgr.Entries() == [EntryOf(client)] + others
                && calls == old(calls) + [ConnectionCall(EntryOf(client))]
      ensures !watched ==>
                mgr.Entries() == others && calls == old(calls) && client.fd !in k.open && faults.epollCtl
      ensures Potential(st) <= Potential(old(st))
      ensures HandlerSteps(st) < HandlerSteps(old(st))
    {
      LeadsIsTransitive();
      watched := TryToWatch(client);
      if watched {
        Announce(client);
      } else {
        RemoveNewest(EntryOf(client), others);
        Unregister(client.fd);
      }
    }

    /** epoll_handler_add; on success on_connection is due. */
    method TryToWatch(client: ClientNode) returns (ok: bool)
      requires Valid() && st.pc == Listed(EntryOf(client))
      modifies this`k, this`running, this`st
      ensures Linked() && Leads(old(st), st) && st.batch == old(st.batch)
      ensures ok ==> st.pc == InConnection(EntryOf(client)) && Due(ConnectionCall(EntryOf(client)))
      ensures !ok ==> st.pc == Listed(EntryOf(client)) && Told() && faults.epollCtl
      ensures Potential(st) <= Potential(old(st))
      ensures HandlerSteps(st) <= HandlerSteps(old(st))
    {
      ok := SysEpollAdd(client.fd);
      assert Linked();
    }

    /** on_connection, for a client that is now watched. */
    method Announce(client: ClientNode)
      requires Linked() && st.pc == InConnection(EntryOf(client)) && Due(ConnectionCall(EntryOf(client)))
      modifies this`k, this`running, this`st, this`calls
      ensures Valid() && Leads(old(st), st) && st.pc == Accepting && st.batch == old(st.batch)
      ensures calls == old(calls) + [ConnectionCall(EntryOf(client))]
      ensures Potential(st) <= Potential(old(st))
      ensures HandlerSteps(st) < HandlerSteps(old(st))
    {
      LeadsIsTransitive();
      OnConnection(client);
      Returned();
    }

    /** The failure path: client_manager_remove and close. */
    method Unregister(clientFd: int)
      requires Valid() && st.pc.Listed? && st.pc.e.fd == clientFd && faults.epollCtl
      modifies this`k, this`running, this`st, mgr, mgr.Repr`next
      ensures Valid() && Leads(old(st), st) && st.pc == Accepting && st.batch == old(st.batch)
      ensures mgr.Entries() == RemoveFirst(old(mgr.Entries()), clientFd) && clientFd !in k.open
      ensures mgr.Repr == old(mgr.Repr)
      ensures Potential(st) <= Potential(old(st))
      ensures HandlerSteps(st) < HandlerSteps(old(st))
    {
      LeadsIsTransitive();
      Unlist(clientFd);
      CloseRejected(clientFd);
    }

    /** client_manager_remove for a client that could not be watched. */
    method Unlist(clientFd: int)
      requires Valid() && st.pc.Listed? && st.pc.e.fd == clientFd && faults.epollCtl
      modifies this`st, mgr, mgr.Repr`next
      ensures Valid() && Leads(old(st), st) && st.pc == Rejecting(old(st.pc.e)) && st.batch == old(st.batch)
      ensures mgr.Entries() == RemoveFirst(old(mgr.Entries()), clientFd)
      ensures mgr.Repr == old(mgr.Repr)
      ensures Potential(st) <= Potential(old(st))
      ensures HandlerSteps(st) < HandlerSteps(old(st))
    {
      ghost var _ := mgr.Remove(clientFd);
      TakenOut();
    }

    /** A client that could not be watched has been taken out of the list. */
    ghost method TakenOut()
      requires Sound() && st.pc.Listed? && faults.epollCtl
      modifies this`st
      ensures Sound() && Leads(old(st), st) && st.pc == Rejecting(old(st.pc.e)) && st.batch == old(st.batch)
      ensures st.list == RemoveFirst(old(st.list), old(st.pc.e.fd)) && st.log == old(st.log)
      ensures Potential(st) <= Potential(old(st))
      ensures HandlerSteps(st) < HandlerSteps(old(st))
    {
      Record(st, WatchError);
    }

    /** gone: the client was found, and taken out of the list again. */
    method HandleClient(clientFd: int) returns (ghost gone: bool)
      requires Valid() && st.pc == Dispatching
      requires st.batch != [] && st.batch[0] == clientFd && clientFd != listenFd
      modifies this, mgr, mgr.Repr`next
      ensures Valid() && Leads(old(st), st) && st.pc == Dispatching && st.batch == old(st.batch)[1..]
      ensures IsOpen(k, clientFd) ==> !Readable(ConnAt(k, clientFd))
      ensures mgr.Entries() == if gone then RemoveFirst(old(mgr.Entries()), clientFd) else old(mgr.Entries())
      ensures gone ==> clientFd !in k.open
      ensures mgr.Repr == old(mgr.Repr)
      ensures Potential(st) <= Potential(old(st))
    {
      LeadsIsTransitive();
      var client := mgr.Find(clientFd);
      Dispatched();
      if client == null {
        return false;
      }
      var buffer := new Byte[BUFFER_SIZE](_ => 0);
      gone := ReceiveAll(client, buffer);
    }

    /** on_disconnected is due or has been called for this client. */
    ghost predicate SaidGoodbye(log: seq<Event>, e: Entry) {
      Disconnected(e, ByEof) in log || Disconnected(e, ByError) in log
    }

    /** The receive loop of handle_client; farewell: it ended with an end of stream or an error, not EAGAIN. */
    method ReceiveAll(client: ClientNode, buffer: array<Byte>) returns (farewell: bool)
      requires Valid() && st.pc == Receiving(EntryOf(client)) && buffer.Length == 1024
      modifies this, buffer, mgr, mgr.Repr`next
      ensures Valid() && Leads(old(st), st) && st.pc == Dispatching && st.batch == old(st.batch)
      ensures farewell ==> mgr.Entries() == RemoveFirst(old(mgr.Entries()), client.fd) && client.fd !in k.open
      ensures farewell ==> calls != [] && calls[|calls| - 1] == DisconnectedCall(EntryOf(client))
      ensures farewell ==> faults.recv || Deserved(st, EntryOf(client))
      ensures !farewell ==> mgr.Entries() == old(mgr.Entries()) && IsOpen(k, client.fd)
      ensures !farewell ==> !Readable(ConnAt(k, client.fd))
      ensures mgr.Repr == old(mgr.Repr)
      ensures Potential(st) <= Potential(old(st))
    {
      LeadsIsTransitive();
      farewell := ReceiveUntilDry(client, buffer);
      if farewell {
        Farewell(client);
      }
    }

    /** recv and on_received, until recv reports something other than data. */
    method ReceiveUntilDry(client: ClientNode, buffer: array<Byte>) returns (over: bool)
      requires Valid() && st.pc == Receiving(EntryOf(client)) && buffer.Length == 1024
      modifies this, buffer
      ensures Linked() && Leads(old(st), st) && st.batch == old(st.batch)
      ensures over ==>
                && st.pc == InDisconnected(EntryOf(client)) && SaidGoodbye(st.log, EntryOf(client))
                && Due(DisconnectedCall(EntryOf(client)))
      ensures !over ==> Told() && st.pc == Dispatching && IsOpen(k, client.fd) && !Readable(ConnAt(k, client.fd))
      ensures Potential(st) <= Potential(old(st))
    {
      LeadsNowhere(st);
      LeadsIsTransitive();
      while true
        invariant Valid() && Leads(old(st), st) && st.batch == old(st.batch)
        invariant st.pc == Receiving(EntryOf(client))
        invariant Potential(st) <= Potential(old(st))
        decreases HandlerSteps(st)
      {
        var n, again := Receive(client, buffer);
        if n <= 0 {
          return !again;
        }
        OnReceived(client, buffer, n);
        Returned();
      }
    }

    /** The recv call, with the callback that is then due. */
    method Receive(client: ClientNode, buffer: array<Byte>) returns (n: int, again: bool)
      requires Valid() && st.pc == Receiving(EntryOf(client)) && buffer.Length == 1024
      modifies this`k, this`running, this`st, buffer
      ensures Linked() && Leads(old(st), st) && st.batch == old(st.batch) && n <= buffer.Length
      ensures n > 0 ==> st.pc == InReceived(EntryOf(client)) && Due(ReceivedCall(EntryOf(client), buffer[..n]))
      ensures n <= 0 && !again ==>
                && st.pc == InDisconnected(EntryOf(client)) && SaidGoodbye(st.log, EntryOf(client))
                && Due(DisconnectedCall(EntryOf(client)))
      ensures n <= 0 && again ==>
                Told() && st.pc == Dispatching && IsOpen(k, client.fd) && !Readable(ConnAt(k, client.fd))
      ensures Potential(st) <= Potential(old(st))
      ensures HandlerSteps(st) < HandlerSteps(old(st))
    {
      n, again := SysRecv(client.fd, buffer);
    }

    /** The common end of handle_client: on_disconnected, out of epoll, close, out of the list. */
    method Farewell(client: ClientNode)
      requires Linked() && st.pc == InDisconnected(EntryOf(client)) && SaidGoodbye(st.log, EntryOf(client))
      requires Due(DisconnectedCall(EntryOf(client)))
      modifies this, mgr, mgr.Repr`next
      ensures Valid() && Leads(old(st), st) && st.pc == Dispatching && st.batch == old(st.batch)
      ensures mgr.Entries() == RemoveFirst(old(mgr.Entries()), client.fd)
      ensures calls == old(calls) + [DisconnectedCall(EntryOf(client))]
      ensures client.fd !in k.open && (faults.recv || Deserved(st, EntryOf(client)))
      ensures mgr.Repr == old(mgr.Repr)
      ensures Potential(st) <= Potential(old(st))
    {
      LeadsIsTransitive();
      OnDisconnected(client);
      LetGo(client.fd);
      GoodbyeWasDeserved(EntryOf(client));
    }

    /** Out of epoll, close, out of the list. */
    method LetGo(clientFd: int)
      requires Linked() && st.pc.InDisconnected? && st.pc.e.fd == clientFd
      modifies this`k, this`running, this`st, mgr, mgr.Repr`next
      ensures Linked() && Leads(old(st), st) && st.pc == Dispatching && st.batch == old(st.batch)
      ensures mgr.Entries() == RemoveFirst(old(mgr.Entries()), clientFd)
      ensures clientFd !in k.open && st.log == old(st.log)
      ensures mgr.Repr == old(mgr.Repr)
      ensures Potential(st) <= Potential(old(st))
    {
      LeadsIsTransitive();
      SysEpollDel(clientFd);
      Interfere();
      CloseAndRemove(clientFd);
    }

    lemma GoodbyeWasDeserved(e: Entry)
      requires Sound() && SaidGoodbye(st.log, e)
      ensures faults.recv || Deserved(st, e)
    {
      var acts :| Exec(s0, acts) == Some(st);
      FaultsStay(s0, acts, st);
      if !faults.recv {
        GoodbyesAreDeserved(s0, acts, st, e, if Disconnected(e, ByEof) in st.log then ByEof else ByError);
      }
    }

    method CloseAndRemove(clientFd: int)
      requires Linked() && st.pc.Closing? && st.pc.e.fd == clientFd
      modifies this`k, this`st, mgr, mgr.Repr`next
      ensures Linked() && Leads(old(st), st) && st.pc == Dispatching && st.batch == old(st.batch)
      ensures clientFd !in k.open && mgr.Entries() == RemoveFirst(old(mgr.Entries()), clientFd)
      ensures st.log == old(st.log)
      ensures mgr.Repr == old(mgr.Repr)
      ensures Potential(st) <= Potential(old(st))
    {
      ghost var before := k;
      k := Close(k, clientFd);
      RemoveClosed(clientFd, before);
    }

    /** client_manager_remove, once the socket is closed. */
    method RemoveClosed(clientFd: int, ghost before: Kernel)
      requires mgr.Valid() && st.list == mgr.Entries() && Closed(before) && st.pc.e.fd == clientFd
      modifies this`st, mgr, mgr.Repr`next
      ensures Linked() && Leads(old(st), st) && st.pc == Dispatching && st.batch == old(st.batch)
      ensures clientFd !in k.open && mgr.Entries() == RemoveFirst(old(mgr.Entries()), clientFd)
      ensures st.log == old(st.log)
      ensures mgr.Repr == old(mgr.Repr)
      ensures Potential(st) <= Potential(old(st))
    {
      ghost var _ := mgr.Remove(clientFd);
      Forgotten(before);
    }

    /** The socket of the leaving client has just been closed; before is the system as it was until then. */
    ghost predicate Closed(before: Kernel)
      reads this
    {
      && events.Length == EPOLL_MAX_EVENTS && Init(s0) && Leads(s0, st) && st.pc.Closing?
      && st.k == before && st.running == running && before.listenFd == listenFd && before.faults == faults
      && k == Close(before, st.pc.e.fd)
    }

    /** The socket has been closed and the client taken out of the list. */
    ghost method Forgotten(before: Kernel)
      requires Closed(before)
      modifies this`st
      ensures Sound() && Leads(old(st), st) && st.pc == Dispatching && st.batch == old(st.batch)
      ensures st.list == RemoveFirst(old(st.list), old(st.pc.e.fd)) && st.log == old(st.log)
      ensures old(st.pc.e.fd) !in k.open
      ensures Potential(st) <= Potential(old(st))
    {
      Record(st, Forget);
    }

    method EpollEventCallback(fd: int)
      requires Valid() && st.pc == Dispatching && st.batch != [] && st.batch[0] == fd
      modifies this, mgr, mgr.Repr`next
      ensures Valid() && Leads(old(st), st) && st.pc == Dispatching && st.batch == old(st.batch)[1..]
      ensures fresh(mgr.Repr - old(mgr.Repr))
      ensures fd != listenFd && IsOpen(k, fd) ==> !Readable(ConnAt(k, fd))
      ensures fd == listenFd && !faults.accept ==> Backlog(k) == 0
      ensures Potential(st) <= Potential(old(st))
    {
      LeadsIsTransitive();
      if fd == listenFd {
        Dispatched();
        ghost var _ := HandleAccept();
      } else {
        ghost var _ := HandleClient(fd);
      }
    }

    // ----- the event loop -----

    method EpollHandlerWait() returns (ret: int, interrupted: bool, parked: bool)
      requires Valid() && st.pc == Waiting
      modifies this, events, mgr, mgr.Repr`next
      ensures Valid() && Leads(old(st), st)
      ensures parked ==> AtRest(st)
      ensures !parked && ret == -1 ==> if interrupted then st.pc == LoopTest(running)
                                       else st.pc == Stopping && faults.epollWait
      ensures !parked && ret != -1 ==> st.pc == Dispatching && st.batch == []
      ensures fresh(mgr.Repr - old(mgr.Repr))
      ensures !parked && (ret != -1 || interrupted) ==> Potential(st) < Potential(old(st))
    {
      LeadsIsTransitive();
      ret, interrupted, parked := SysEpollWait();
      if parked || ret == -1 {
        return;
      }
      DispatchAll(ret);
    }

    /** The callbacks for the reported events, in order. */
    method DispatchAll(nfds: int)
      requires Valid() && st.pc == Dispatching
      requires 0 <= nfds <= events.Length && st.batch == events[..nfds]
      modifies this, mgr, mgr.Repr`next
      ensures Valid() && Leads(old(st), st) && st.pc == Dispatching && st.batch == []
      ensures fresh(mgr.Repr - old(mgr.Repr))
      ensures Potential(st) <= Potential(old(st))
    {
      LeadsNowhere(st);
      LeadsIsTransitive();
      var i := 0;
      while i < nfds
        invariant Valid() && Leads(old(st), st) && st.pc == Dispatching
        invariant 0 <= i <= nfds <= events.Length && st.batch == events[i..nfds]
        invariant fresh(mgr.Repr - old(mgr.Repr))
        invariant Potential(st) <= Potential(old(st))
      {
        assert events[i..nfds][1..] == events[i + 1..nfds];
        EpollEventCallback(events[i]);
        i := i + 1;
      }
    }

    /** One turn of the event loop; failed when epoll_wait failed for another reason than a signal. */
    method Round() returns (failed: bool, parked: bool)
      requires Valid() && st.pc == Waiting
      modifies this, events, mgr, mgr.Repr`next
      ensures Valid() && Leads(old(st), st)
      ensures fresh(mgr.Repr - old(mgr.Repr))
      ensures parked ==> AtRest(st)
      ensures !parked ==> st.pc == if failed then Stopping else LoopTest(running)
      ensures failed ==> faults.epollWait
      ensures !parked && !failed ==> Potential(st) < Potential(old(st))
    {
      LeadsIsTransitive();
      var ret, interrupted;
      ret, interrupted, parked := EpollHandlerWait();
      failed := !parked && ret == -1 && !interrupted;
      if !parked && ret != -1 {
        LoopTested(NextRound);
      }
    }

    /**
     socket_server_start. Unless the world falls silent while the server waits for it, the call returns 0,
     because it was stopped or epoll_wait failed, after the callbacks of the run between on_start and
     on_stop. If the server is left waiting, on_received has been called, for every open client, with every
     byte its peer sent; and if no call fails, nobody was disconnected and at most 1000 connections arrived,
     every one of them has been served.
     */
    method SocketServerStart() returns (ret: int, parked: bool)
      requires Created()
      modifies this, events, mgr, mgr.Repr`next
      ensures Linked()
      ensures !parked ==> st.pc == Stopping && ret == 0 && calls == CallsOf(st.log) + [StopCall]
      ensures calls != [] && calls[0] == StartCall
      ensures !parked ==> !running || faults.epollWait
      ensures parked ==> AtRest(st) && Told()
      ensures parked ==> forall fd :: fd in k.open ==>
                k.open[fd] < |k.conns| && Given(calls, k.open[fd]) == k.conns[k.open[fd]].sent
      ensures parked && faults == NO_FAULTS && CloseCalls(st.log) == 0 && |k.conns| <= 1000 ==>
                forall c :: 0 <= c < |k.conns| ==> Served(st, c)
    {
      LeadsNowhere(s0);
      running := true;
      OnStart();
      LoopTested(Begin);
      parked := LoopWhileRunning();
      if parked {
        LeftWaiting();
        return 0, true;
      }
      OnStop();
      return 0, false;
    }

    /** The loop of socket_server_start: until it is stopped or epoll_wait fails. */
    method LoopWhileRunning() returns (parked: bool)
      requires Valid() && st.pc == LoopTest(running)
      modifies this, events, mgr, mgr.Repr`next
      ensures Valid() && if parked then AtRest(st) else st.pc == Stopping && (!running || faults.epollWait)
      ensures fresh(mgr.Repr - old(mgr.Repr))
    {
      while running
        invariant Valid() && st.pc == LoopTest(running)
        invariant fresh(mgr.Repr - old(mgr.Repr))
        decreases Potential(st)
      {
        var failed;
        failed, parked := Round();
        if parked || failed {
          return;
        }
      }
      return false;
    }

    /** What holds when the server is left waiting. */
    lemma LeftWaiting()
      requires Sound() && Told() && AtRest(st)
      ensures forall fd :: fd in k.open ==>
                k.open[fd] < |k.conns| && Given(calls, k.open[fd]) == k.conns[k.open[fd]].sent
      ensures faults == NO_FAULTS && CloseCalls(st.log) == 0 && |k.conns| <= 1000 ==>
                forall c :: 0 <= c < |k.conns| ==> Served(st, c)
    {
      var acts :| Exec(s0, acts) == Some(st);
      RestMeansDelivered(s0, st);
      FaultsStay(s0, acts, st);
      forall fd | fd in k.open
        ensures Given(calls, k.open[fd]) == Delivered(st.log, k.open[fd])
      {
        GivenIsDelivered(st.log, k.open[fd]);
      }
      if faults == NO_FAULTS && CloseCalls(st.log) == 0 && |k.conns| <= 1000 {
        forall c | 0 <= c < |k.conns|
          ensures Served(st, c)
        {
          EverybodyIsServed(s0, acts, st, c);
        }
      }
    }
  }
}
