/**
 Termination and progress: handlers end, the event loop comes to rest when the outside world does,
 and at rest everything the peers sent has been delivered.
 */
module Progress {
  import opened Bytes
  import opened ClientList
  import opened Os
  import opened EventLoop
  import opened Agreement
  import opened Stale
  import opened Wakeups
  import opened History

  // ----- how many handler steps are left -----

  predicate InHandler(pc: Pc) {
    !(pc.Starting? || pc.Waiting? || pc.Dispatching? || pc.Stopping?)
  }

  function PcRank(pc: Pc): nat {
    match pc
    case Accepted(_) => 4
    case Listed(_) => 3
    case Rejecting(_) => 2
    case InConnection(_) => 2
    case Accepting => 1
    case InReceived(_) => 5
    case Receiving(_) => 4
    case InDisconnected(_) => 2
    case Closing(_) => 1
    case _ => 0
  }

  /** Input queued for the handler that is running: connections for accept, bytes for recv. */
  function Queued(s: State): nat {
    if s.pc.Receiving? || s.pc.InReceived? then
      if s.pc.e.conn < |s.k.conns| then |s.k.conns[s.pc.e.conn].buffered| else 0
    else if InAcceptLoop(s.pc) then Backlog(s.k)
    else 0
  }

  /** An upper bound on the steps the running handler can still take. */
  function HandlerSteps(s: State): nat {
    if InHandler(s.pc) then 5 * (s.k.supply + Queued(s)) + PcRank(s.pc) else 0
  }

  lemma HandlerStepsStep(s: State, a: Action)
    requires Structure(s) && InHandler(s.pc) && Enabled(s, a)
    ensures HandlerSteps(Apply(s, a)) <= HandlerSteps(s) - if HandlerAction(a) then 1 else 0
  {
    var s' := Apply(s, a);
    if HandlerAction(a) {
      if s.pc.Receiving? {
        MatchIsListed(s, s.pc.e.fd);
      }
    } else {
      assert Queued(s') + s'.k.supply <= Queued(s) + s.k.supply;
    }
  }

  function HandlerActions(more: seq<Action>): nat {
    if more == [] then 0
    else HandlerActions(more[..|more| - 1]) + if HandlerAction(more[|more| - 1]) then 1 else 0
  }

  /** Every state from s on, up to but not including the last one, is inside a handler. */
  ghost predicate WithinHandler(s: State, more: seq<Action>) {
    forall n :: 0 <= n < |more| && Exec(s, more[..n]).Some? ==> InHandler(Exec(s, more[..n]).value.pc)
  }

  lemma {:induction false} StructureFrom(s: State, more: seq<Action>, t: State)
    requires Structure(s) && Exec(s, more) == Some(t)
    ensures Structure(t)
  {
    if more != [] {
      var before := Exec(s, more[..|more| - 1]).value;
      StructureFrom(s, more[..|more| - 1], before);
      StructureStep(before, more[|more| - 1]);
    }
  }

  /**
   Handlers end: with whatever the outside world and the callbacks do in between, the steps a
   handler takes are bounded by the input still to arrive plus the input queued.
   */
  lemma {:induction false} HandlersEnd(s: State, more: seq<Action>, t: State)
    requires Structure(s) && Exec(s, more) == Some(t) && WithinHandler(s, more)
    ensures HandlerActions(more) + HandlerSteps(t) <= HandlerSteps(s)
  {
    if more != [] {
      var prefix, a := more[..|more| - 1], more[|more| - 1];
      var before := Exec(s, prefix).value;
      forall n | 0 <= n < |prefix| && Exec(s, prefix[..n]).Some?
        ensures InHandler(Exec(s, prefix[..n]).value.pc)
      {
        assert prefix[..n] == more[..n];
      }
      HandlersEnd(s, prefix, before);
      StructureFrom(s, prefix, before);
      assert InHandler(Exec(s, more[..|prefix|]).value.pc);
      HandlerStepsStep(before, a);
    }
  }

  /** No place in a handler is a dead end, whatever state the world is in and whichever calls may fail. */
  lemma HandlerIsNeverStuck(s: State) returns (a: Action)
    requires Structure(s) && InHandler(s.pc)
    ensures Enabled(s, a) && HandlerAction(a)
  {
    match s.pc
    case Accepting =>
      a := if Backlog(s.k) == 0 then AcceptEmpty else AcceptOne(LowestFree(s.k.open.Keys + {s.k.listenFd}, 0));
    case Accepted(_) => a := if |s.list| < CLIENT_MAX_CLIENTS then AddClient else Refuse;
    case Listed(_) => a := Watch;
    case Rejecting(_) => a := RejectClose;
    case Receiving(e) => a := NextReceive(s.k, e.fd);
    case Closing(_) => a := Forget;
    case _ => a := Return;
  }

  function NextReceive(k: Kernel, fd: int): Action {
    if !IsOpen(k, fd) || ConnAt(k, fd).reset then RecvError
    else if ConnAt(k, fd).buffered != [] then RecvData(1)
    else if ConnAt(k, fd).eof then RecvEof
    else RecvEmpty
  }

  /** So every state has a continuation that is between handlers. */
  lemma {:induction false} HandlerCanEnd(s: State) returns (more: seq<Action>, t: State)
    requires Structure(s)
    ensures Exec(s, more) == Some(t) && BetweenHandlers(t.pc)
    decreases s.pc.Starting?, HandlerSteps(s)
  {
    if BetweenHandlers(s.pc) {
      return [], s;
    }
    var a := Begin;
    if InHandler(s.pc) {
      a := HandlerIsNeverStuck(s);
      HandlerStepsStep(s, a);
    }
    StructureStep(s, a);
    more, t := HandlerCanEnd(Apply(s, a));
    ExecAppend(s, [], s, a);
    ExecConcat(s, [a], Apply(s, a), more);
    more := [a] + more;
  }

  // ----- how many rounds of the event loop are left -----

  /** Work that can still cause an epoll_wait to return. */
  function Potential(s: State): nat {
    4 * s.k.supply + 2 * Backlog(s.k) + |s.k.edges| + if s.pc.Accepted? || s.pc.Listed? then 1 else 0
  }

  lemma SmallerSet(a: set<int>, b: set<int>)
    requires a <= b
    ensures |a| <= |b|
    ensures a != b ==> |a| < |b|
  {
    assert b == a + (b - a);
  }

  lemma SignalIsOneEdge(k: Kernel, conn: nat)
    requires KernelOk(k)
    ensures |Signalled(k, conn)| <= 1
  {
    if fd :| fd in k.open && k.open[fd] == conn {
      forall f | f in Signalled(k, conn) ensures f == fd {
      }
      SmallerSet(Signalled(k, conn), {fd});
    } else {
      forall f | f in Signalled(k, conn) ensures false {
      }
      SmallerSet(Signalled(k, conn), {});
    }
  }

  lemma PotentialEnv(s: State, m: Move)
    requires Structure(s) && Enabled(s, Env(m))
    ensures Potential(Apply(s, Env(m))) < Potential(s)
  {
    var s' := Apply(s, Env(m));
    if m.Connect? {
      assert s'.k.edges <= s.k.edges + {s.k.listenFd};
      SmallerSet(s'.k.edges, s.k.edges + {s.k.listenFd});
    } else if !m.Spurious? {
      SignalIsOneEdge(s.k, m.conn);
    }
  }

  /** Only outside input and EPOLL_CTL_ADD set edges. */
  lemma EdgesShrink(s: State, a: Action)
    requires Enabled(s, a) && !a.Env? && !a.Watch?
    ensures Apply(s, a).k.edges <= s.k.edges
    ensures Apply(s, a).k.supply == s.k.supply - if a.WaitInterrupted? then 1 else 0
    ensures Backlog(Apply(s, a).k) == Backlog(s.k) - if a.AcceptOne? then 1 else 0
  {
  }

  lemma PotentialWait(s: State, fds: seq<int>)
    requires Enabled(s, Wait(fds))
    ensures Potential(Apply(s, Wait(fds))) < Potential(s)
  {
    var edges := Report(s.k, fds).edges;
    var fd := fds[0];
    assert fd in fds;
    assert edges <= s.k.edges && fd in s.k.edges && fd !in edges;
    SmallerSet(edges, s.k.edges);
  }

  lemma PotentialQuiet(s: State, a: Action)
    requires Enabled(s, a) && !a.Env? && !a.Watch? && !a.Wait?
    ensures Potential(Apply(s, a)) <= Potential(s)
    ensures a.WaitInterrupted? ==> Potential(Apply(s, a)) < Potential(s)
  {
    EdgesShrink(s, a);
    SmallerSet(Apply(s, a).k.edges, s.k.edges);
    if Apply(s, a).pc.Accepted? || Apply(s, a).pc.Listed? {
      PendingRegistration(s, a);
    }
  }

  /** Only an accept puts a connection on its way to registration. */
  lemma PendingRegistration(s: State, a: Action)
    requires Enabled(s, a) && (Apply(s, a).pc.Accepted? || Apply(s, a).pc.Listed?)
    ensures a.AcceptOne? || s.pc.Accepted? || s.pc.Listed?
  {
  }

  lemma PotentialWatch(s: State)
    requires Enabled(s, Watch)
    ensures Potential(Apply(s, Watch)) <= Potential(s)
  {
    var k' := EpollAdd(s.k, s.pc.e.fd);
    assert k'.edges <= s.k.edges + {s.pc.e.fd};
    SmallerSet(k'.edges, s.k.edges + {s.pc.e.fd});
  }

  /** No action adds work, and each return from epoll_wait uses some up. */
  lemma PotentialStep(s: State, a: Action)
    requires Structure(s) && Enabled(s, a)
    ensures Potential(Apply(s, a)) <= Potential(s)
    ensures a.Wait? || a.WaitInterrupted? ==> Potential(Apply(s, a)) < Potential(s)
  {
    match a
    case Env(m) => PotentialEnv(s, m);
    case Watch => PotentialWatch(s);
    case Wait(fds) => PotentialWait(s, fds);
    case _ => PotentialQuiet(s, a);
  }

  function Rounds(acts: seq<Action>): nat {
    if acts == [] then 0
    else
      var a := acts[|acts| - 1];
      Rounds(acts[..|acts| - 1]) + if a.Wait? || a.WaitInterrupted? then 1 else 0
  }

  /** The event loop comes to rest: epoll_wait returns at most four times per unit of outside activity. */
  lemma {:induction false} LoopComesToRest(s0: State, acts: seq<Action>, s: State)
    requires Reaches(s0, acts, s)
    ensures Rounds(acts) + Potential(s) <= 4 * s0.k.supply
  {
    if acts == [] {
    } else {
      var prefix, a := acts[..|acts| - 1], acts[|acts| - 1];
      var before := Exec(s0, prefix).value;
      LoopComesToRest(s0, prefix, before);
      StructureAlways(s0, prefix, before);
      PotentialStep(before, a);
    }
  }

  lemma StoppedStep(s: State, a: Action)
    requires Enabled(s, a) && !s.running
    ensures !Apply(s, a).running && (Apply(s, a).pc.Waiting? ==> s.pc.Waiting? && !a.Wait? && !a.WaitInterrupted?)
    ensures a.Wait? || a.WaitInterrupted? ==> s.pc.Waiting?
  {
  }

  /** Once stopped, the server stays so, and epoll_wait returns at most once more: if it was waiting already. */
  lemma {:induction false} StopEndsTheLoop(s: State, more: seq<Action>, t: State)
    requires !s.running && Exec(s, more) == Some(t)
    ensures !t.running
    ensures Rounds(more) + (if t.pc.Waiting? then 1 else 0) <= if s.pc.Waiting? then 1 else 0
  {
    if more != [] {
      var prefix, before, a := LastAction(s, more, t);
      StopEndsTheLoop(s, prefix, before);
      StoppedStep(before, a);
    }
  }

  // ----- at rest, everything is delivered -----

  /** epoll_wait has nothing to report. */
  predicate AtRest(s: State) {
    s.pc.Waiting? && s.k.edges == {}
  }

  /**
   At rest, every client whose socket is open has been given every byte its peer ever sent, its
   connection is neither ended nor reset, and it was announced exactly as it is listed.
   */
  lemma AtRestEverythingIsDelivered(s0: State, acts: seq<Action>, s: State, fd: int)
    requires Reaches(s0, acts, s) && AtRest(s) && fd in s.k.open
    ensures s.k.open[fd] < |s.k.conns|
    ensures Delivered(s.log, s.k.open[fd]) == ConnAt(s.k, fd).sent
    ensures !ConnAt(s.k, fd).eof && !ConnAt(s.k, fd).reset
    ensures PhaseOf(s.log, s.k.open[fd]) == Active(fd)
  {
    StructureAlways(s0, acts, s);
    NoLostWakeupAlways(s0, acts, s);
    BytesAlways(s0, acts, s);
    PhasesAlways(s0, acts, s);
    MatchIsListed(s, fd);
    assert Announced(s, Entry(fd, s.k.open[fd]));
    assert Delivered(s.log, s.k.open[fd]) + ConnAt(s.k, fd).buffered == ConnAt(s.k, fd).sent;
  }

  /** And no connection is left in the backlog, unless accept failed in the stranding branch. */
  lemma AtRestTheBacklogIsEmpty(s0: State, acts: seq<Action>, s: State)
    requires Reaches(s0, acts, s) && AtRest(s) && NeverStrands(s0, acts)
    ensures Backlog(s.k) == 0
  {
    CoveredAt(s0, acts, |acts|);
    assert acts[..|acts|] == acts;
    StructureAlways(s0, acts, s);
  }

  /** The same for a state that some run leads to. */
  lemma RestMeansDelivered(s0: State, s: State)
    requires Init(s0) && Leads(s0, s) && AtRest(s)
    ensures forall fd :: fd in s.k.open ==>
              s.k.open[fd] < |s.k.conns| && Delivered(s.log, s.k.open[fd]) == s.k.conns[s.k.open[fd]].sent
  {
    var acts :| Exec(s0, acts) == Some(s);
    forall fd | fd in s.k.open
      ensures s.k.open[fd] < |s.k.conns| && Delivered(s.log, s.k.open[fd]) == s.k.conns[s.k.open[fd]].sent
    {
      AtRestEverythingIsDelivered(s0, acts, s, fd);
    }
  }
}
