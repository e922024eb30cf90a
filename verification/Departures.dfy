/**
 How a client leaves. Once handle_client is at work on a client whose socket is closed, every
 continuation takes the client out of the list for good, after exactly one on_disconnected.
 */
module Departures {
  import opened Bytes
  import opened ClientList
  import opened EventLoop
  import opened Agreement
  import opened Stale
  import opened History

  // ----- counting on_disconnected -----

  /** Number of on_disconnected calls for this client. */
  function Goodbyes(log: seq<Event>, e: Entry): nat {
    if log == [] then 0
    else Goodbyes(log[..|log| - 1], e) + if log[|log| - 1].Disconnected? && log[|log| - 1].e == e then 1 else 0
  }

  lemma {:induction false} GoodbyesStep(log: seq<Event>, ev: Event, e: Entry)
    ensures Goodbyes(log + [ev], e) == Goodbyes(log, e) + if ev.Disconnected? && ev.e == e then 1 else 0
  {
    assert (log + [ev])[..|log|] == log;
  }

  /** Only the recv loop of the client itself adds to the count. */
  lemma {:induction false} GoodbyesEffect(s: State, a: Action, e: Entry)
    requires Enabled(s, a)
    ensures Goodbyes(Apply(s, a).log, e)
         == Goodbyes(s.log, e) + if (a.RecvEof? || a.RecvError?) && s.pc.e == e then 1 else 0
  {
    LogEffect(s, a);
    if EventOf(s, a).Some? {
      GoodbyesStep(s.log, EventOf(s, a).value, e);
    }
  }

  /** Only the recv loop of the client itself hands it bytes. */
  lemma {:induction false} DeliveredEffect(s: State, a: Action, conn: nat)
    requires Enabled(s, a)
    requires a.RecvData? ==> s.pc.e.conn != conn
    ensures Delivered(Apply(s, a).log, conn) == Delivered(s.log, conn)
  {
    LogEffect(s, a);
    if EventOf(s, a).Some? {
      LogStep(s.log, EventOf(s, a).value, conn);
    }
  }

  lemma {:induction false} NoGoodbyeWhileActive(log: seq<Event>, e: Entry)
    requires PhaseOf(log, e.conn) == NotYet || PhaseOf(log, e.conn).Active?
    ensures Goodbyes(log, e) == 0
  {
    if log != [] {
      NoGoodbyeWhileActive(log[..|log| - 1], e);
    }
  }

  lemma {:induction false} AnnouncedMeansNoGoodbye(s: State, e: Entry)
    requires PhasesOk(s) && Announced(s, e)
    ensures Goodbyes(s.log, e) == 0
  {
    NoGoodbyeWhileActive(s.log, e);
  }

  /** From on_disconnected to the end of the handler, it has been called exactly once. */
  ghost predicate CalledOnce(s: State) {
    s.pc.InDisconnected? || s.pc.Closing? ==> Goodbyes(s.log, s.pc.e) == 1
  }

  lemma CalledOnceStep(s: State, a: Action)
    requires Structure(s) && PhasesOk(s) && CalledOnce(s) && Enabled(s, a)
    ensures CalledOnce(Apply(s, a))
  {
    var t := Apply(s, a);
    if t.pc.InDisconnected? || t.pc.Closing? {
      GoodbyesEffect(s, a, t.pc.e);
      if a.RecvEof? || a.RecvError? {
        MatchIsListed(s, s.pc.e.fd);
        AnnouncedMeansNoGoodbye(s, s.pc.e);
      }
    }
  }

  lemma {:induction false} CalledOnceAlways(s0: State, acts: seq<Action>, s: State)
    requires Reaches(s0, acts, s)
    ensures CalledOnce(s)
  {
    if acts != [] {
      var prefix, before, a := LastAction(s0, acts, s);
      CalledOnceAlways(s0, prefix, before);
      StructureAlways(s0, prefix, before);
      PhasesAlways(s0, prefix, before);
      CalledOnceStep(before, a);
    }
  }

  // ----- on the way out, and gone -----

  /** handle_client is at work on a client whose socket is closed. */
  ghost predicate OnTheWayOut(s: State, e: Entry) {
    && e.fd !in s.k.open
    && match s.pc
       case InReceived(x) => x == e && Goodbyes(s.log, e) == 0
       case Receiving(x) => x == e && Goodbyes(s.log, e) == 0
       case InDisconnected(x) => x == e && Goodbyes(s.log, e) == 1
       case Closing(x) => x == e && Goodbyes(s.log, e) == 1
       case _ => false
  }

  /** The client has left and cannot come back: its connection number is used up. */
  ghost predicate Gone(s: State, e: Entry) {
    && (forall x :: x in s.list ==> x.conn != e.conn) && e.conn < s.k.accepted
    && (HasEntry(s.pc) ==> s.pc.e.conn != e.conn)
    && Goodbyes(s.log, e) == 1
  }

  lemma WayOutStep(s: State, e: Entry, a: Action)
    requires Structure(s) && OnTheWayOut(s, e) && Enabled(s, a)
    ensures OnTheWayOut(Apply(s, a), e) || Gone(Apply(s, a), e)
  {
    if a.Forget? {
      WayOutEnds(s, e);
    } else if HandlerAction(a) {
      WayOutGoesOn(s, e, a);
    } else {
      WayOutWaits(s, e, a);
    }
  }

  lemma WayOutGoesOn(s: State, e: Entry, a: Action)
    requires OnTheWayOut(s, e) && Enabled(s, a) && HandlerAction(a) && !a.Forget?
    ensures OnTheWayOut(Apply(s, a), e)
  {
    GoodbyesEffect(s, a, e);
    assert a.Return? || a.RecvError?;
  }

  /** Arrivals and other calls to disconnect leave the handler where it is. */
  lemma WayOutWaits(s: State, e: Entry, a: Action)
    requires OnTheWayOut(s, e) && Enabled(s, a) && !HandlerAction(a)
    ensures OnTheWayOut(Apply(s, a), e)
  {
    GoodbyesEffect(s, a, e);
  }

  lemma WayOutEnds(s: State, e: Entry)
    requires Structure(s) && OnTheWayOut(s, e) && Enabled(s, Forget)
    ensures Gone(Apply(s, Forget), e)
  {
    GoodbyesEffect(s, Forget, e);
    MatchIsListed(s, e.fd);
    RemoveTakesExactlyTheMatch(s.list, e.fd);
  }

  lemma GoneStep(s: State, e: Entry, a: Action)
    requires Structure(s) && Gone(s, e) && Enabled(s, a)
    ensures Gone(Apply(s, a), e)
  {
    GoodbyesEffect(s, a, e);
    ListEffect(s, a);
    if a.Dispatch? {
      FirstMatchMeans(s.list, s.batch[0]);
    } else if a.WatchError? || a.Forget? {
      RemoveTakesExactlyTheMatch(s.list, s.pc.e.fd);
    }
  }

  /** On every continuation the client is on its way out or gone, and is handed no further byte. */
  lemma {:induction false} LeavesForGood(s: State, e: Entry, more: seq<Action>, t: State)
    requires Structure(s) && (OnTheWayOut(s, e) || Gone(s, e)) && Exec(s, more) == Some(t)
    ensures Structure(t) && (OnTheWayOut(t, e) || Gone(t, e))
    ensures Delivered(t.log, e.conn) == Delivered(s.log, e.conn)
    ensures BetweenHandlers(t.pc) ==> e !in t.list && Goodbyes(t.log, e) == 1
  {
    if more != [] {
      var prefix, before, a := LastAction(s, more, t);
      LeavesForGood(s, e, prefix, before);
      StructureStep(before, a);
      if OnTheWayOut(before, e) {
        WayOutStep(before, e, a);
      } else {
        GoneStep(before, e, a);
      }
      NoMoreBytes(before, e, a);
    }
  }

  lemma NoMoreBytes(s: State, e: Entry, a: Action)
    requires Structure(s) && (OnTheWayOut(s, e) || Gone(s, e)) && Enabled(s, a)
    ensures Delivered(Apply(s, a).log, e.conn) == Delivered(s.log, e.conn)
  {
    DeliveredEffect(s, a, e.conn);
  }

  // ----- a client that disconnects itself -----

  lemma SelfDisconnectIsOnTheWayOut(s0: State, acts: seq<Action>, s: State, e: Entry)
    requires Reaches(s0, acts, s) && Enabled(s, Disconnect(e))
    requires InClientHandler(s.pc) && s.pc.e == e
    ensures Structure(Apply(s, Disconnect(e))) && OnTheWayOut(Apply(s, Disconnect(e)), e)
  {
    StructureAlways(s0, acts, s);
    StructureStep(s, Disconnect(e));
    GoodbyesEffect(s, Disconnect(e), e);
    if s.pc.InReceived? {
      PhasesAlways(s0, acts, s);
      AnnouncedMeansNoGoodbye(s, e);
    } else {
      CalledOnceAlways(s0, acts, s);
    }
  }

  /**
   A client that disconnects itself, from its own on_received or on_disconnected, is handed no further
   byte, and by the end of the handler it is gone for good, after exactly one on_disconnected.
   */
  lemma {:induction false} SelfDisconnectIsCleanedUp(s0: State, acts: seq<Action>, s: State, e: Entry,
                                                     more: seq<Action>, t: State)
    requires Reaches(s0, acts, s) && Enabled(s, Disconnect(e))
    requires InClientHandler(s.pc) && s.pc.e == e
    requires Exec(Apply(s, Disconnect(e)), more) == Some(t)
    ensures Delivered(t.log, e.conn) == Delivered(s.log, e.conn)
    ensures BetweenHandlers(t.pc) ==> e !in t.list && Goodbyes(t.log, e) == 1
  {
    SelfDisconnectIsOnTheWayOut(s0, acts, s, e);
    DeliveredEffect(s, Disconnect(e), e.conn);
    LeavesForGood(Apply(s, Disconnect(e)), e, more, t);
  }
}
