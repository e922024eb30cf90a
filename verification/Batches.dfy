/**
 Batch safety: without socket_server_disconnect, an event reported by epoll_wait is dispatched to the
 connection it was reported for, however many handlers and accepts run in between.
 */
module Batches {
  import opened ClientList
  import opened EventLoop
  import opened Agreement
  import opened Stale
  import opened Wakeups

  /** Events of the batch are for watched sockets, and none is for the socket being handled. */
  ghost predicate BatchIsCurrent(s: State) {
    && (forall fd :: fd in s.batch ==> fd in s.k.watched)
    && (HasEntry(s.pc) ==> s.pc.e.fd !in s.batch)
  }

  lemma BatchIsCurrentStep(s: State, a: Action)
    requires Structure(s) && BatchOk(s) && BatchIsCurrent(s) && Enabled(s, a) && !a.Disconnect?
    ensures BatchIsCurrent(Apply(s, a))
  {
    if a.Dispatch? {
      BatchIsCurrentDispatch(s);
    } else if HasEntry(s.pc) {
      BatchIsCurrentInHandler(s, a);
    }
  }

  lemma BatchIsCurrentDispatch(s: State)
    requires BatchOk(s) && BatchIsCurrent(s) && Enabled(s, Dispatch)
    ensures BatchIsCurrent(Apply(s, Dispatch))
  {
    assert s.batch == [s.batch[0]] + s.batch[1..];
    FirstMatchMeans(s.list, s.batch[0]);
  }

  /** A handler unwatches no socket but its own. */
  lemma BatchIsCurrentInHandler(s: State, a: Action)
    requires BatchIsCurrent(s) && Enabled(s, a) && !a.Disconnect? && HasEntry(s.pc)
    ensures BatchIsCurrent(Apply(s, a))
  {
  }

  lemma {:induction false} BatchIsCurrentAlways(s0: State, acts: seq<Action>, s: State)
    requires Reaches(s0, acts, s) && CloseCalls(s.log) == 0
    ensures BatchIsCurrent(s)
  {
    if acts != [] {
      var prefix, before, a := LastAction(s0, acts, s);
      CloseCallsEffect(before, a);
      BatchIsCurrentAlways(s0, prefix, before);
      StructureAlways(s0, prefix, before);
      BatchOkAlways(s0, prefix, before);
      BatchIsCurrentStep(before, a);
    }
  }

  /** The handler of a client event finds the open connection behind the event's descriptor. */
  lemma DispatchFindsAnOpenConnection(s0: State, acts: seq<Action>, s: State)
    requires Reaches(s0, acts, s) && CloseCalls(s.log) == 0
    requires s.pc.Dispatching? && s.batch != [] && s.batch[0] != s.k.listenFd
    ensures s.batch[0] in s.k.open
    ensures Apply(s, Dispatch).pc == Receiving(Entry(s.batch[0], s.k.open[s.batch[0]]))
  {
    StructureAlways(s0, acts, s);
    BatchIsCurrentAlways(s0, acts, s);
    assert s.batch[0] in s.batch;
  }

  /** more extends a run without taking a new batch from epoll_wait. */
  predicate SameRound(more: seq<Action>) {
    forall i :: 0 <= i < |more| ==> !more[i].Wait?
  }

  /** One action of the same round leaves the connection behind a waiting event alone. */
  lemma BatchConnectionStep(s: State, a: Action, fd: int)
    requires Structure(s) && BatchIsCurrent(s) && Enabled(s, a) && !a.Wait? && !a.Disconnect?
    requires fd in Apply(s, a).batch && fd != s.k.listenFd
    ensures fd in s.batch && fd in s.k.open
    ensures fd in Apply(s, a).k.open && Apply(s, a).k.open[fd] == s.k.open[fd]
  {
  }

  /**
   Until the next epoll_wait, a client event that is still in the batch is for the very connection
   that was open behind its descriptor when the batch was reported.
   */
  lemma {:induction false} BatchKeepsItsConnections(s0: State, acts: seq<Action>, s: State,
                                                    more: seq<Action>, t: State, fd: int)
    requires Reaches(s0, acts, s) && Reaches(s0, acts + more, t)
    requires SameRound(more) && CloseCalls(t.log) == 0
    requires fd in t.batch && fd != t.k.listenFd
    ensures fd in s.batch && fd in s.k.open && fd in t.k.open && t.k.open[fd] == s.k.open[fd]
    decreases |more|
  {
    if more == [] {
      assert acts + more == acts;
      StructureAlways(s0, acts, s);
      BatchIsCurrentAlways(s0, acts, s);
    } else {
      var prefix, before, a := LastAction(s0, acts + more, t);
      var shorter := more[..|more| - 1];
      assert prefix == acts + shorter;
      assert a == more[|more| - 1];
      CloseCallsEffect(before, a);
      StructureAlways(s0, prefix, before);
      BatchIsCurrentAlways(s0, prefix, before);
      ListenFdStep(before, a);
      BatchConnectionStep(before, a, fd);
      BatchKeepsItsConnections(s0, acts, s, shorter, before, fd);
    }
  }
}
