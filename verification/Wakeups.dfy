/**
 No lost wake-ups. Edges are reported once, and input may arrive between any two system calls, yet
 input on a registered client is never forgotten. The listen backlog has the same guarantee except
 at one branch of the accept loop, which is pinned down exactly.
 */
module Wakeups {
  import opened Bytes
  import opened Os
  import opened EventLoop
  import opened Agreement
  import opened Stale

  /** The client whose socket the current handler will read again or close. */
  predicate Serving(pc: Pc, fd: int) {
    (pc.Receiving? || pc.InReceived? || pc.InDisconnected?) && pc.e.fd == fd
  }

  predicate Attended(s: State, fd: int) {
    fd in s.k.edges || fd in s.batch || Serving(s.pc, fd)
  }

  ghost predicate NoLostWakeup(s: State) {
    forall fd :: IsOpen(s.k, fd) && fd in s.k.watched && Readable(ConnAt(s.k, fd)) ==> Attended(s, fd)
  }

  /** Input that arrives sets an edge on the watched socket it arrives for. */
  lemma NoLostWakeupEnv(s: State, m: Move)
    requires Structure(s) && NoLostWakeup(s) && Enabled(s, Env(m))
    ensures NoLostWakeup(Apply(s, Env(m)))
  {
    var s' := Apply(s, Env(m));
    forall fd | IsOpen(s'.k, fd) && fd in s'.k.watched && Readable(ConnAt(s'.k, fd))
      ensures Attended(s', fd)
    {
      if m.Connect? {
        assert ConnAt(s'.k, fd) == ConnAt(s.k, fd);
      } else if !m.Spurious? && s.k.open[fd] == m.conn {
        assert fd in Signalled(s.k, m.conn);
      }
    }
  }

  /** Taking up an event moves its socket from the batch into the handler. */
  lemma NoLostWakeupDispatch(s: State)
    requires Structure(s) && NoLostWakeup(s) && Enabled(s, Dispatch)
    ensures NoLostWakeup(Apply(s, Dispatch))
  {
    assert forall fd :: fd in s.batch ==> fd == s.batch[0] || fd in s.batch[1..];
  }

  lemma NoLostWakeupStep(s: State, a: Action)
    requires Structure(s) && NoLostWakeup(s) && Enabled(s, a)
    ensures NoLostWakeup(Apply(s, a))
  {
    match a
    case Env(m) => NoLostWakeupEnv(s, m);
    case Dispatch => NoLostWakeupDispatch(s);
    case _ =>
  }

  lemma {:induction false} NoLostWakeupAlways(s0: State, acts: seq<Action>, s: State)
    requires Reaches(s0, acts, s)
    ensures NoLostWakeup(s)
  {
    if acts != [] {
      var before := Exec(s0, acts[..|acts| - 1]).value;
      NoLostWakeupAlways(s0, acts[..|acts| - 1], before);
      StructureAlways(s0, acts[..|acts| - 1], before);
      NoLostWakeupStep(before, acts[|acts| - 1]);
    }
  }

  /**
   On every run, between two handlers, each open client with input (data, end of stream or a reset)
   has an edge that epoll_wait will report or an event waiting in the current batch.
   */
  lemma EveryReadableClientIsScheduled(s0: State, acts: seq<Action>, s: State, fd: int)
    requires Reaches(s0, acts, s) && BetweenHandlers(s.pc)
    requires fd in s.k.open
    ensures IsOpen(s.k, fd)
    ensures Readable(ConnAt(s.k, fd)) ==> fd in s.k.edges || fd in s.batch
  {
    StructureAlways(s0, acts, s);
    NoLostWakeupAlways(s0, acts, s);
  }

  // ----- the listen backlog -----

  predicate InAcceptLoop(pc: Pc) {
    pc.Accepting? || pc.Accepted? || pc.Listed? || pc.Rejecting? || pc.InConnection?
  }

  predicate BacklogCovered(s: State) {
    Backlog(s.k) > 0 ==>
      s.k.listenFd in s.k.edges || s.k.listenFd in s.batch || InAcceptLoop(s.pc)
  }

  /**
   The branch that gives up: accept failed with something other than EAGAIN, connections are queued,
   and no new edge has been set for the listening socket meanwhile.
   */
  predicate Strands(s: State, a: Action) {
    a.AcceptError? && Backlog(s.k) > 0 && s.k.listenFd !in s.k.edges
  }

  /** While the accept loop runs, the listening socket has no second event in the batch. */
  ghost predicate BatchOk(s: State) {
    && Distinct(s.batch)
    && (InAcceptLoop(s.pc) ==> s.k.listenFd !in s.batch)
  }

  lemma BatchOkDispatch(s: State)
    requires BatchOk(s) && Enabled(s, Dispatch)
    ensures BatchOk(Apply(s, Dispatch))
  {
    assert s.batch == [s.batch[0]] + s.batch[1..];
  }

  lemma BatchOkStep(s: State, a: Action)
    requires BatchOk(s) && Enabled(s, a)
    ensures BatchOk(Apply(s, a))
  {
    if a.Dispatch? {
      BatchOkDispatch(s);
    } else {
      assert !a.Wait? ==> Apply(s, a).batch == s.batch;
    }
  }

  lemma {:induction false} BatchOkAlways(s0: State, acts: seq<Action>, s: State)
    requires Reaches(s0, acts, s)
    ensures BatchOk(s)
  {
    if acts != [] {
      var before := Exec(s0, acts[..|acts| - 1]).value;
      BatchOkAlways(s0, acts[..|acts| - 1], before);
      BatchOkStep(before, acts[|acts| - 1]);
    }
  }

  lemma BacklogEnv(s: State, m: Move)
    requires Structure(s) && BacklogCovered(s) && Enabled(s, Env(m))
    ensures BacklogCovered(Apply(s, Env(m)))
  {
  }

  /** Taking up an event moves the listening socket from the batch into the accept loop. */
  lemma BacklogDispatch(s: State)
    requires BacklogCovered(s) && Enabled(s, Dispatch)
    ensures BacklogCovered(Apply(s, Dispatch))
  {
    assert forall fd :: fd in s.batch ==> fd == s.batch[0] || fd in s.batch[1..];
  }

  lemma BacklogAccept(s: State, a: Action)
    requires Structure(s) && BatchOk(s) && BacklogCovered(s) && Enabled(s, a) && InAcceptLoop(s.pc)
    requires !a.Env? && !a.Disconnect?
    ensures BacklogCovered(Apply(s, a)) <==> !Strands(s, a)
  {
  }

  lemma BacklogElsewhere(s: State, a: Action)
    requires Structure(s) && BacklogCovered(s) && Enabled(s, a)
    requires a.Disconnect? || (!InAcceptLoop(s.pc) && !a.Env? && !a.Dispatch?)
    ensures BacklogCovered(Apply(s, a))
  {
    if a.Disconnect? {
      assert a.e.fd != s.k.listenFd;
    } else if a.Forget? || a.Return? {
      MatchIsListed(s, s.pc.e.fd);
    }
  }

  /** From a covered state, one action leaves the backlog covered exactly when it does not strand it. */
  lemma BacklogStep(s: State, a: Action)
    requires Structure(s) && BatchOk(s) && BacklogCovered(s) && Enabled(s, a)
    ensures BacklogCovered(Apply(s, a)) <==> !Strands(s, a)
  {
    if a.Env? {
      BacklogEnv(s, a.m);
    } else if a.Dispatch? {
      BacklogDispatch(s);
    } else if a.Disconnect? || !InAcceptLoop(s.pc) {
      BacklogElsewhere(s, a);
    } else {
      BacklogAccept(s, a);
    }
  }

  ghost predicate AlwaysCovered(s0: State, acts: seq<Action>) {
    forall n :: 0 <= n <= |acts| && Exec(s0, acts[..n]).Some? ==> BacklogCovered(Exec(s0, acts[..n]).value)
  }

  ghost predicate NeverStrands(s0: State, acts: seq<Action>) {
    forall n :: 0 <= n < |acts| && Exec(s0, acts[..n]).Some? ==> !Strands(Exec(s0, acts[..n]).value, acts[n])
  }

  lemma {:induction false} ExecPrefix(s0: State, acts: seq<Action>, n: nat)
    requires n <= |acts| && Exec(s0, acts).Some?
    ensures Exec(s0, acts[..n]).Some?
  {
    if n == |acts| {
      assert acts[..n] == acts;
    } else {
      ExecPrefix(s0, acts[..|acts| - 1], n);
      assert acts[..|acts| - 1][..n] == acts[..n];
    }
  }

  /**
   The backlog is covered throughout a run exactly when the run never takes the stranding branch;
   in particular on every run where accept fails only with EAGAIN.
   */
  lemma BacklogIsCoveredIffNeverStranded(s0: State, acts: seq<Action>, s: State)
    requires Reaches(s0, acts, s)
    ensures AlwaysCovered(s0, acts) <==> NeverStrands(s0, acts)
  {
    if NeverStrands(s0, acts) {
      CoveredIfNeverStranded(s0, acts);
    }
    if AlwaysCovered(s0, acts) {
      forall n | 0 <= n < |acts|
        ensures Exec(s0, acts[..n]).Some? ==> !Strands(Exec(s0, acts[..n]).value, acts[n])
      {
        OneMore(s0, acts, n);
        var b := Exec(s0, acts[..n]).value;
        StructureAlways(s0, acts[..n], b);
        BatchOkAlways(s0, acts[..n], b);
        BacklogStep(b, acts[n]);
        assert BacklogCovered(Exec(s0, acts[..n + 1]).value);
      }
    }
  }

  lemma {:induction false} OneMore(s0: State, acts: seq<Action>, n: nat)
    requires n < |acts| && Exec(s0, acts).Some?
    ensures Exec(s0, acts[..n]).Some? && Enabled(Exec(s0, acts[..n]).value, acts[n])
    ensures Exec(s0, acts[..n + 1]) == Some(Apply(Exec(s0, acts[..n]).value, acts[n]))
  {
    ExecPrefix(s0, acts, n + 1);
    assert acts[..n + 1][..n] == acts[..n];
  }

  lemma {:induction false} CoveredIfNeverStranded(s0: State, acts: seq<Action>)
    requires Init(s0) && Exec(s0, acts).Some? && NeverStrands(s0, acts)
    ensures AlwaysCovered(s0, acts)
  {
    forall n | 0 <= n <= |acts| && Exec(s0, acts[..n]).Some?
      ensures BacklogCovered(Exec(s0, acts[..n]).value)
    {
      CoveredAt(s0, acts, n);
    }
  }

  lemma {:induction false} CoveredAt(s0: State, acts: seq<Action>, n: nat)
    requires Init(s0) && Exec(s0, acts).Some? && NeverStrands(s0, acts) && n <= |acts|
    ensures Exec(s0, acts[..n]).Some? && BacklogCovered(Exec(s0, acts[..n]).value)
  {
    if n > 0 {
      CoveredAt(s0, acts, n - 1);
      OneMore(s0, acts, n - 1);
      var b := Exec(s0, acts[..n - 1]).value;
      StructureAlways(s0, acts[..n - 1], b);
      BatchOkAlways(s0, acts[..n - 1], b);
      BacklogStep(b, acts[n - 1]);
    }
  }

  /** Where accept fails only with EAGAIN, no connection is stranded. */
  lemma {:induction false} ReliableAcceptNeverStrands(s0: State, acts: seq<Action>)
    requires Exec(s0, acts).Some? && !s0.k.faults.accept
    ensures NeverStrands(s0, acts)
  {
    forall n | 0 <= n < |acts|
      ensures Exec(s0, acts[..n]).Some? && !Strands(Exec(s0, acts[..n]).value, acts[n])
    {
      OneMore(s0, acts, n);
      FaultsStay(s0, acts[..n], Exec(s0, acts[..n]).value);
    }
  }

  /**
   The failure is real: one connection arrives, accept runs out of descriptors, and the server goes
   back to epoll_wait with the connection queued and nothing left to wake it.
   */
  lemma AcceptErrorCanStrandAConnection(s0: State) returns (acts: seq<Action>, s: State)
    requires Init(s0) && s0.k.supply >= 1 && s0.k.faults.accept
    ensures Reaches(s0, acts, s) && s.pc.Waiting? && Backlog(s.k) == 1 && s.k.edges == {}
  {
    var fd := s0.k.listenFd;
    acts, s := Extend(s0, [], s0, Begin);
    acts, s := Extend(s0, acts, s, Env(Connect));
    assert s.k.watched == {fd} && s.k.edges == {fd} && fd in s.k.edges;
    assert Reportable(s.k, [fd]);
    acts, s := Extend(s0, acts, s, Wait([fd]));
    assert s.k.edges == {};
    acts, s := Extend(s0, acts, s, Dispatch);
    acts, s := Extend(s0, acts, s, AcceptError);
    acts, s := Extend(s0, acts, s, NextRound);
  }
}
