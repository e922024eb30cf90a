/**
 What clients get, when the calls the server makes do not fail on their own account: nobody is turned
 away, nobody is dropped without a reason, and at rest everybody has been served.
 */
module Service {
  import opened Bytes
  import opened ClientList
  import opened Os
  import opened EventLoop
  import opened Agreement
  import opened Stale
  import opened History
  import opened Wakeups
  import opened Progress
  import opened Leaks

  // ----- nobody is dropped without a reason -----

  /** socket_server_disconnect was called on a client with this descriptor. */
  ghost predicate Called(log: seq<Event>, fd: int) {
    exists i :: 0 <= i < |log| && log[i].CloseCall? && log[i].e.fd == fd
  }

  lemma CalledStays(log: seq<Event>, ev: Event, fd: int)
    ensures Called(log, fd) ==> Called(log + [ev], fd)
    ensures ev.CloseCall? && ev.e.fd == fd ==> Called(log + [ev], fd)
  {
    if Called(log, fd) {
      var i :| 0 <= i < |log| && log[i].CloseCall? && log[i].e.fd == fd;
      assert (log + [ev])[i] == log[i];
    }
    assert (log + [ev])[|log|] == ev;
  }

  lemma CalledStep(s: State, a: Action, fd: int)
    requires Enabled(s, a)
    ensures Called(s.log, fd) ==> Called(Apply(s, a).log, fd)
    ensures a.Disconnect? && a.e.fd == fd ==> Called(Apply(s, a).log, fd)
  {
    LogEffect(s, a);
    if EventOf(s, a).Some? {
      CalledStays(s.log, EventOf(s, a).value, fd);
    }
  }

  /** A listed client whose socket is closed was disconnected by such a call. */
  ghost predicate ClosedOnRequest(s: State) {
    forall e :: e in s.list ==> OpenFor(s.k, e) || Called(s.log, e.fd)
  }

  /** The server's own closes hit no listed client that stays. */
  lemma OwnCloses(s: State, a: Action, e: Entry)
    requires Structure(s) && Enabled(s, a) && (a.RejectClose? || a.Forget?)
    requires e in Apply(s, a).list
    ensures e in s.list && (OpenFor(s.k, e) ==> OpenFor(Apply(s, a).k, e))
  {
    ListEffect(s, a);
    if a.Forget? {
      MatchIsListed(s, s.pc.e.fd);
      RemoveTakesExactlyTheMatch(s.list, s.pc.e.fd);
    }
  }

  lemma ClosedOnRequestStep(s: State, a: Action)
    requires Structure(s) && ClosedOnRequest(s) && Enabled(s, a)
    ensures ClosedOnRequest(Apply(s, a))
  {
    var t := Apply(s, a);
    forall e | e in t.list
      ensures OpenFor(t.k, e) || Called(t.log, e.fd)
    {
      CalledStep(s, a, e.fd);
      if a.RejectClose? || a.Forget? {
        OwnCloses(s, a, e);
      } else {
        StillOpen(s, a, e);
      }
    }
  }

  lemma StillOpen(s: State, a: Action, e: Entry)
    requires Structure(s) && Enabled(s, a) && !a.RejectClose? && !a.Forget?
    requires e in Apply(s, a).list
    ensures e in s.list || OpenFor(Apply(s, a).k, e)
    ensures OpenFor(s.k, e) && !(a.Disconnect? && a.e.fd == e.fd) ==> OpenFor(Apply(s, a).k, e)
  {
    ListEffect(s, a);
    if a.WatchError? {
      RemoveTakesExactlyTheMatch(s.list, s.pc.e.fd);
    }
  }

  lemma {:induction false} ClosedOnRequestAlways(s0: State, acts: seq<Action>, s: State)
    requires Reaches(s0, acts, s)
    ensures ClosedOnRequest(s)
  {
    if acts != [] {
      var prefix, before, a := LastAction(s0, acts, s);
      ClosedOnRequestAlways(s0, prefix, before);
      StructureAlways(s0, prefix, before);
      ClosedOnRequestStep(before, a);
    }
  }

  predicate WasReset(k: Kernel, conn: nat) {
    conn < |k.conns| && k.conns[conn].reset
  }

  ghost predicate ErrorsOk(s: State) {
    forall e :: Disconnected(e, ByError) in s.log ==>
      s.k.faults.recv || WasReset(s.k, e.conn) || Called(s.log, e.fd)
  }

  lemma ResetStays(s: State, a: Action, conn: nat)
    requires Enabled(s, a) && WasReset(s.k, conn)
    ensures WasReset(Apply(s, a).k, conn)
  {
  }

  lemma NewError(s: State, a: Action)
    requires Structure(s) && ClosedOnRequest(s) && Enabled(s, a) && a.RecvError?
    ensures s.k.faults.recv || WasReset(s.k, s.pc.e.conn) || Called(s.log, s.pc.e.fd)
  {
    MatchIsListed(s, s.pc.e.fd);
  }

  lemma ErrorsStep(s: State, a: Action)
    requires Structure(s) && ClosedOnRequest(s) && ErrorsOk(s) && Enabled(s, a)
    ensures ErrorsOk(Apply(s, a))
  {
    var t := Apply(s, a);
    LogEffect(s, a);
    ListenFdStep(s, a);
    forall e | Disconnected(e, ByError) in t.log
      ensures t.k.faults.recv || WasReset(t.k, e.conn) || Called(t.log, e.fd)
    {
      CalledStep(s, a, e.fd);
      if Disconnected(e, ByError) !in s.log {
        assert a.RecvError? && e == s.pc.e;
        NewError(s, a);
      }
      if WasReset(s.k, e.conn) {
        ResetStays(s, a, e.conn);
      }
    }
  }

  lemma {:induction false} ErrorsAlways(s0: State, acts: seq<Action>, s: State)
    requires Reaches(s0, acts, s)
    ensures ErrorsOk(s)
  {
    if acts != [] {
      var prefix, before, a := LastAction(s0, acts, s);
      ErrorsAlways(s0, prefix, before);
      StructureAlways(s0, prefix, before);
      ClosedOnRequestAlways(s0, prefix, before);
      ErrorsStep(before, a);
    }
  }

  /** The peer ended the stream and all of it was delivered, or the peer reset it, or user code closed it. */
  ghost predicate Deserved(s: State, e: Entry) {
    || Called(s.log, e.fd)
    || WasReset(s.k, e.conn)
    || (e.conn < |s.k.conns| && s.k.conns[e.conn].eof && Delivered(s.log, e.conn) == s.k.conns[e.conn].sent)
  }

  /** Where recv fails only for a reason in the socket, on_disconnected is called only if it is deserved. */
  lemma GoodbyesAreDeserved(s0: State, acts: seq<Action>, s: State, e: Entry, cause: Cause)
    requires Reaches(s0, acts, s) && !s0.k.faults.recv && Disconnected(e, cause) in s.log
    ensures Deserved(s, e)
  {
    FaultsStay(s0, acts, s);
    if cause == ByEof {
      EofsAlways(s0, acts, s);
      BytesAreConserved(s0, acts, s, e.conn);
    } else {
      ErrorsAlways(s0, acts, s);
    }
  }

  // ----- nobody is turned away -----

  /** Registration fails for no other reason than a full list. */
  predicate Registers(f: Faults) {
    !f.fcntl && !f.memory && !f.epollCtl
  }

  lemma {:induction false} FewConnsFewEntries(list: seq<Entry>, n: nat)
    requires Descending(list) && forall x :: x in list ==> x.conn < n
    ensures |list| <= n
  {
    if list != [] {
      var rest := list[1..];
      assert forall x :: x in rest ==> x.conn < list[0].conn;
      FewConnsFewEntries(rest, list[0].conn);
    }
  }

  /** On its way to being announced. */
  predicate ComingUp(s: State, conn: nat) {
    (s.pc.Accepted? || s.pc.Listed?) && s.pc.e.conn == conn
  }

  ghost predicate NobodyTurnedAway(s: State) {
    && !s.pc.Rejecting?
    && (forall c: nat {:trigger PhaseOf(s.log, c)} :: c < s.k.accepted ==>
          PhaseOf(s.log, c) != NotYet || ComingUp(s, c))
  }

  lemma RoomForAll(s: State)
    requires Structure(s) && NewestFirst(s) && s.pc.Accepted? && s.k.accepted <= CLIENT_MAX_CLIENTS
    ensures |s.list| < CLIENT_MAX_CLIENTS
  {
    FewConnsFewEntries(s.list, s.pc.e.conn);
  }

  lemma {:induction false} PhaseMovesOn(s: State, a: Action, conn: nat)
    requires Enabled(s, a) && PhaseOf(s.log, conn) != NotYet
    ensures PhaseOf(Apply(s, a).log, conn) != NotYet
  {
    LogEffect(s, a);
    if EventOf(s, a).Some? {
      LogStep(s.log, EventOf(s, a).value, conn);
    }
  }

  lemma {:induction false} ComesUp(s: State, a: Action, conn: nat)
    requires Enabled(s, a) && ComingUp(s, conn) && !a.Refuse? && !a.WatchError?
    ensures ComingUp(Apply(s, a), conn) || PhaseOf(Apply(s, a).log, conn) != NotYet
  {
    if a.Watch? {
      LogStep(s.log, Connected(s.pc.e), conn);
    }
  }

  lemma NobodyTurnedAwayStep(s: State, a: Action)
    requires Structure(s) && NewestFirst(s) && NobodyTurnedAway(s) && Enabled(s, a)
    requires Registers(s.k.faults) && s.k.accepted <= CLIENT_MAX_CLIENTS
    ensures NobodyTurnedAway(Apply(s, a))
  {
    if s.pc.Accepted? {
      RoomForAll(s);
    }
    var t := Apply(s, a);
    forall c: nat | c < t.k.accepted
      ensures PhaseOf(t.log, c) != NotYet || ComingUp(t, c)
    {
      if c < s.k.accepted {
        if PhaseOf(s.log, c) != NotYet {
          PhaseMovesOn(s, a, c);
        } else {
          ComesUp(s, a, c);
        }
      }
    }
  }

  lemma AcceptedGrows(s: State, a: Action)
    requires Enabled(s, a)
    ensures s.k.accepted <= Apply(s, a).k.accepted
  {
  }

  /** Where registration cannot fail, each of the first 1000 connections accepted is announced. */
  lemma {:induction false} NobodyTurnedAwayAlways(s0: State, acts: seq<Action>, s: State)
    requires Reaches(s0, acts, s) && Registers(s0.k.faults) && s.k.accepted <= 1000
    ensures NobodyTurnedAway(s)
  {
    if acts != [] {
      var prefix, before, a := LastAction(s0, acts, s);
      AcceptedGrows(before, a);
      NobodyTurnedAwayAlways(s0, prefix, before);
      StructureAlways(s0, prefix, before);
      NewestFirstAlways(s0, prefix, before);
      FaultsStay(s0, prefix, before);
      NobodyTurnedAwayStep(before, a);
    }
  }

  // ----- who is announced is listed -----

  ghost predicate ActiveAreListed(s: State) {
    forall c: nat {:trigger PhaseOf(s.log, c)} ::
      PhaseOf(s.log, c).Active? ==> Announced(s, Entry(PhaseOf(s.log, c).fd, c))
  }

  lemma ActiveLogged(s: State, a: Action, ev: Event)
    requires Structure(s) && ActiveAreListed(s) && Enabled(s, a) && EventOf(s, a) == Some(ev)
    ensures ActiveAreListed(Apply(s, a))
  {
    var t := Apply(s, a);
    LogEffect(s, a);
    ListEffect(s, a);
    if !a.Disconnect? {
      CallbackMoves(s, a, ev);
      MatchIsListed(s, s.pc.e.fd);
    }
    forall c: nat | PhaseOf(t.log, c).Active?
      ensures Announced(t, Entry(PhaseOf(t.log, c).fd, c))
    {
      LogStep(s.log, ev, c);
    }
  }

  lemma ActiveStep(s: State, a: Action)
    requires Structure(s) && ActiveAreListed(s) && Enabled(s, a)
    ensures ActiveAreListed(Apply(s, a))
  {
    match EventOf(s, a)
    case None =>
      LogEffect(s, a);
      SameAnnounced(s, a);
    case Some(ev) => ActiveLogged(s, a, ev);
  }

  lemma {:induction false} ActiveAlways(s0: State, acts: seq<Action>, s: State)
    requires Reaches(s0, acts, s)
    ensures ActiveAreListed(s)
  {
    if acts != [] {
      var prefix, before, a := LastAction(s0, acts, s);
      ActiveAlways(s0, prefix, before);
      StructureAlways(s0, prefix, before);
      ActiveStep(before, a);
    }
  }

  lemma {:induction false} DoneMeansGoodbye(log: seq<Event>, conn: nat) returns (cause: Cause)
    requires PhaseOf(log, conn).Done?
    ensures Disconnected(Entry(PhaseOf(log, conn).fd, conn), cause) in log
  {
    var before, ev := log[..|log| - 1], log[|log| - 1];
    if PhaseOf(before, conn).Done? {
      cause := DoneMeansGoodbye(before, conn);
    } else {
      cause := ev.cause;
    }
  }

  lemma {:induction false} NoCalls(log: seq<Event>, fd: int)
    requires CloseCalls(log) == 0
    ensures !Called(log, fd)
  {
    if log != [] {
      NoCalls(log[..|log| - 1], fd);
    }
  }

  // ----- everybody is served -----

  /**
   Connection c was announced. Its client is still there, and has been given all that was sent, unless the
   peer ended or reset it; then it has been told goodbye, after everything that was sent before an end.
   */
  ghost predicate Served(s: State, c: nat)
    requires c < |s.k.conns|
  {
    var conn := s.k.conns[c];
    && (if conn.eof || conn.reset then PhaseOf(s.log, c).Done? else PhaseOf(s.log, c).Active?)
    && (!conn.reset ==> Delivered(s.log, c) == conn.sent)
  }

  /** Connection c is with an announced client. */
  lemma {:induction false} ServedWhileActive(s0: State, acts: seq<Action>, s: State, c: nat)
    requires Reaches(s0, acts, s) && AtRest(s) && CloseCalls(s.log) == 0
    requires c < |s.k.conns| && PhaseOf(s.log, c).Active?
    ensures Served(s, c)
  {
    var fd := PhaseOf(s.log, c).fd;
    ActiveAlways(s0, acts, s);
    StaleBoundAlways(s0, acts, s);
    NoStaleMeansAllLive(s.list, s.k);
    assert Announced(s, Entry(fd, c)) && OpenFor(s.k, Entry(fd, c));
    AtRestEverythingIsDelivered(s0, acts, s, fd);
  }

  lemma {:induction false} ServedWhenDone(s0: State, acts: seq<Action>, s: State, c: nat)
    requires Reaches(s0, acts, s) && CloseCalls(s.log) == 0 && !s0.k.faults.recv
    requires c < |s.k.conns| && PhaseOf(s.log, c).Done?
    ensures s.k.conns[c].eof || s.k.conns[c].reset
    ensures !s.k.conns[c].reset ==> Delivered(s.log, c) == s.k.conns[c].sent
  {
    var e := Entry(PhaseOf(s.log, c).fd, c);
    var cause := DoneMeansGoodbye(s.log, c);
    GoodbyesAreDeserved(s0, acts, s, e, cause);
    NoCalls(s.log, e.fd);
  }

  /**
   The server's purpose. If none of its calls fails on its own account, user code disconnects nobody and
   at most 1000 connections arrive, then at rest every one of them has been served.
   */
  lemma EverybodyIsServed(s0: State, acts: seq<Action>, s: State, c: nat)
    requires Reaches(s0, acts, s) && AtRest(s) && CloseCalls(s.log) == 0
    requires Registers(s0.k.faults) && !s0.k.faults.accept && !s0.k.faults.recv
    requires c < |s.k.conns| <= 1000
    ensures Served(s, c)
  {
    StructureAlways(s0, acts, s);
    ReliableAcceptNeverStrands(s0, acts);
    AtRestTheBacklogIsEmpty(s0, acts, s);
    NobodyTurnedAwayAlways(s0, acts, s);
    PhasesAlways(s0, acts, s);
    if PhaseOf(s.log, c).Active? {
      ServedWhileActive(s0, acts, s, c);
    } else {
      ServedWhenDone(s0, acts, s, c);
    }
  }
}
