/**
 The price of socket_server_disconnect. It only closes the descriptor, and closing drops the
 descriptor from epoll; so unless the client's own handler is running or an event for its descriptor
 is already waiting in the batch, nothing will ever look at the entry again.
 */
module Leaks {
  import opened Bytes
  import opened ClientList
  import opened Os
  import opened EventLoop
  import opened Agreement
  import opened Stale
  import opened History
  import opened Progress
  import opened Departures

  ghost predicate Descending(list: seq<Entry>) {
    forall i, j :: 0 <= i < j < |list| ==> list[i].conn > list[j].conn
  }

  /** The list is ordered by the age of its connections, newest first. */
  ghost predicate NewestFirst(s: State) {
    && Descending(s.list)
    && (s.pc.Accepted? ==> forall x :: x in s.list ==> x.conn < s.pc.e.conn)
  }

  lemma RemoveKeepsOrder(list: seq<Entry>, fd: int)
    requires Descending(list)
    ensures Descending(RemoveFirst(list, fd))
  {
    var k, after := FirstIndex(list, fd), RemoveFirst(list, fd);
    if k < |list| {
      assert forall j :: 0 <= j < |after| ==> after[j] == if j < k then list[j] else list[j + 1];
    }
  }

  lemma NewestFirstStep(s: State, a: Action)
    requires Structure(s) && NewestFirst(s) && Enabled(s, a)
    ensures NewestFirst(Apply(s, a))
  {
    ListEffect(s, a);
    if a.WatchError? || a.Forget? {
      RemoveKeepsOrder(s.list, s.pc.e.fd);
    } else if !a.AddClient? && !a.AcceptOne? {
      assert Apply(s, a).pc.Accepted? ==> Apply(s, a).pc == s.pc;
    }
  }

  lemma {:induction false} NewestFirstAlways(s0: State, acts: seq<Action>, s: State)
    requires Reaches(s0, acts, s)
    ensures NewestFirst(s)
  {
    if acts != [] {
      var before := Exec(s0, acts[..|acts| - 1]).value;
      NewestFirstAlways(s0, acts[..|acts| - 1], before);
      StructureAlways(s0, acts[..|acts| - 1], before);
      NewestFirstStep(before, acts[|acts| - 1]);
    }
  }

  /** A search finds the newest of the entries that share a descriptor. */
  lemma MatchIsNewest(s: State, e: Entry)
    requires NewestFirst(s) && e in s.list
    ensures FirstMatch(s.list, e.fd).Some? && FirstMatch(s.list, e.fd).value.conn >= e.conn
  {
    var j :| 0 <= j < |s.list| && s.list[j] == e;
    assert FirstIndex(s.list, e.fd) <= j;
  }

  /** The socket handle_client is at work on has no further event in the batch. */
  ghost predicate ServedOnce(s: State) {
    Distinct(s.batch) && (InClientHandler(s.pc) ==> s.pc.e.fd !in s.batch)
  }

  lemma ServedOnceDispatch(s: State)
    requires ServedOnce(s) && Enabled(s, Dispatch)
    ensures ServedOnce(Apply(s, Dispatch))
  {
    assert s.batch == [s.batch[0]] + s.batch[1..];
    FirstMatchMeans(s.list, s.batch[0]);
  }

  lemma ServedOnceStep(s: State, a: Action)
    requires ServedOnce(s) && Enabled(s, a)
    ensures ServedOnce(Apply(s, a))
  {
    if a.Dispatch? {
      ServedOnceDispatch(s);
    } else {
      assert !a.Wait? ==> Apply(s, a).batch == s.batch;
    }
  }

  lemma {:induction false} ServedOnceAlways(s0: State, acts: seq<Action>, s: State)
    requires Reaches(s0, acts, s)
    ensures ServedOnce(s)
  {
    if acts != [] {
      var before := Exec(s0, acts[..|acts| - 1]).value;
      ServedOnceAlways(s0, acts[..|acts| - 1], before);
      ServedOnceStep(before, acts[|acts| - 1]);
    }
  }

  /** A listed entry that is newer, has the same descriptor and is past registration. */
  predicate Shadows(s: State, x: Entry, e: Entry) {
    x in s.list && x.fd == e.fd && x.conn > e.conn && s.pc != Listed(x)
  }

  /** Closed, not being handled, and out of reach of every event in the batch. */
  ghost predicate Leaked(s: State, e: Entry) {
    && e in s.list && !OpenFor(s.k, e)
    && (InClientHandler(s.pc) ==> s.pc.e != e)
    && (e.fd in s.batch ==> exists x :: Shadows(s, x, e))
  }

  /** A reported event is for an open socket, whose live entry shadows every stale one. */
  lemma LeakedWait(s: State, e: Entry, a: Action)
    requires Structure(s) && NewestFirst(s) && Leaked(s, e) && Enabled(s, a) && a.Wait?
    ensures Leaked(Apply(s, a), e)
  {
    if e.fd in a.fds {
      var x := FirstMatch(s.list, e.fd).value;
      FirstMatchMeans(s.list, e.fd);
      MatchIsNewest(s, e);
      assert Shadows(Apply(s, a), x, e);
    }
  }

  /** Dispatching an event for a shared descriptor reaches a newer entry. */
  lemma LeakedDispatch(s: State, e: Entry, a: Action)
    requires Structure(s) && NewestFirst(s) && ServedOnce(s) && Leaked(s, e) && Enabled(s, a) && a.Dispatch?
    ensures Leaked(Apply(s, a), e)
  {
    var fd := s.batch[0];
    assert s.batch == [fd] + s.batch[1..];
    FirstMatchMeans(s.list, fd);
    if fd == e.fd {
      var x :| Shadows(s, x, e);
      MatchIsNewest(s, x);
    } else if e.fd in s.batch {
      var x :| Shadows(s, x, e);
      assert Shadows(Apply(s, a), x, e);
    }
  }

  lemma LeakedRemove(s: State, e: Entry, a: Action)
    requires Structure(s) && ServedOnce(s) && Leaked(s, e) && Enabled(s, a) && (a.WatchError? || a.Forget?)
    ensures Leaked(Apply(s, a), e)
  {
    RemoveTakesExactlyTheMatch(s.list, s.pc.e.fd);
    if e.fd in s.batch {
      var x :| Shadows(s, x, e);
      assert Shadows(Apply(s, a), x, e);
    }
  }

  lemma LeakedOther(s: State, e: Entry, a: Action)
    requires Structure(s) && Leaked(s, e) && Enabled(s, a)
    requires !a.Wait? && !a.Dispatch? && !a.WatchError? && !a.Forget?
    ensures Leaked(Apply(s, a), e)
  {
    if e.fd in s.batch {
      var x :| Shadows(s, x, e);
      assert Shadows(Apply(s, a), x, e);
    }
  }

  lemma LeakedStep(s: State, e: Entry, a: Action)
    requires Structure(s) && NewestFirst(s) && ServedOnce(s) && Leaked(s, e) && Enabled(s, a)
    ensures Leaked(Apply(s, a), e)
  {
    if a.Wait? {
      LeakedWait(s, e, a);
    } else if a.Dispatch? {
      LeakedDispatch(s, e, a);
    } else if a.WatchError? || a.Forget? {
      LeakedRemove(s, e, a);
    } else {
      LeakedOther(s, e, a);
    }
  }

  // ----- whole runs -----

  /** What a leak depends on, on every run. */
  ghost predicate Sound(s: State) {
    Structure(s) && NewestFirst(s) && ServedOnce(s)
  }

  lemma SoundAlways(s0: State, acts: seq<Action>, s: State)
    requires Reaches(s0, acts, s)
    ensures Sound(s)
  {
    StructureAlways(s0, acts, s);
    NewestFirstAlways(s0, acts, s);
    ServedOnceAlways(s0, acts, s);
  }

  lemma SoundStep(s: State, a: Action)
    requires Sound(s) && Enabled(s, a)
    ensures Sound(Apply(s, a))
  {
    StructureStep(s, a);
    NewestFirstStep(s, a);
    ServedOnceStep(s, a);
  }

  /**
   A leaked entry stays in the client list on every continuation, and on_disconnected is never
   called for it again.
   */
  lemma {:induction false} LeakedForever(s: State, e: Entry, more: seq<Action>, t: State)
    requires Sound(s) && Leaked(s, e) && Exec(s, more) == Some(t)
    ensures Sound(t) && Leaked(t, e)
    ensures e in t.list && Goodbyes(t.log, e) == Goodbyes(s.log, e)
  {
    if more != [] {
      var prefix, before, a := LastAction(s, more, t);
      LeakedForever(s, e, prefix, before);
      LeakedStep(before, e, a);
      SoundStep(before, a);
      GoodbyesEffect(before, a, e);
    }
  }

  lemma {:induction false} NoGoodbyeYet(s0: State, acts: seq<Action>, s: State, e: Entry)
    requires Reaches(s0, acts, s) && Announced(s, e)
    ensures Goodbyes(s.log, e) == 0
  {
    PhasesAlways(s0, acts, s);
    AnnouncedMeansNoGoodbye(s, e);
  }

  /**
   Disconnecting a client whose handler is not running and that has no event in the batch leaks its
   entry: it keeps counting against the limit of 1000 and its on_disconnected never comes.
   */
  lemma {:induction false} DisconnectElsewhereLeaks(s0: State, acts: seq<Action>, s: State, e: Entry,
                                                    more: seq<Action>, t: State)
    requires Reaches(s0, acts, s) && Enabled(s, Disconnect(e))
    requires !(InClientHandler(s.pc) && s.pc.e == e) && e.fd !in s.batch
    requires Exec(Apply(s, Disconnect(e)), more) == Some(t)
    ensures e in t.list && Goodbyes(t.log, e) == 0
  {
    SoundAlways(s0, acts, s);
    SoundStep(s, Disconnect(e));
    NoGoodbyeYet(s0, acts, s, e);
    GoodbyesEffect(s, Disconnect(e), e);
    LeakedForever(Apply(s, Disconnect(e)), e, more, t);
  }

  /** Whatever happens, by the end of the handler the client is out of the list, after one on_disconnected. */
  ghost predicate AlwaysCleanedUp(s: State, e: Entry) {
    forall more, t :: Exec(s, more) == Some(t) && BetweenHandlers(t.pc) ==>
      e !in t.list && Goodbyes(t.log, e) == 1
  }

  /**
   The fate of a disconnected client without an event in the batch, on every run: it is cleaned up
   exactly when handle_client is at work on it, and otherwise not on any continuation.
   */
  lemma DisconnectIsCleanedUpIffInOwnHandler(s0: State, acts: seq<Action>, s: State, e: Entry)
    requires Reaches(s0, acts, s) && Enabled(s, Disconnect(e)) && e.fd !in s.batch
    ensures AlwaysCleanedUp(Apply(s, Disconnect(e)), e) <==> InClientHandler(s.pc) && s.pc.e == e
  {
    var after := Apply(s, Disconnect(e));
    if InClientHandler(s.pc) && s.pc.e == e {
      forall more, t | Exec(after, more) == Some(t) && BetweenHandlers(t.pc)
        ensures e !in t.list && Goodbyes(t.log, e) == 1
      {
        SelfDisconnectIsCleanedUp(s0, acts, s, e, more, t);
      }
    } else {
      SoundAlways(s0, acts, s);
      SoundStep(s, Disconnect(e));
      var more, t := HandlerCanEnd(after);
      DisconnectElsewhereLeaks(s0, acts, s, e, more, t);
    }
  }

  // ----- a disconnected client with an event waiting in the batch -----

  /**
   When the event comes up and the entry is still the newest with its descriptor, the handler finds it,
   gets an error from recv, and cleans up: on every continuation, by the end of the handler, the entry
   is gone for good and on_disconnected was called exactly once.
   */
  lemma {:induction false} WaitingEventCleansUp(s0: State, acts: seq<Action>, s: State, e: Entry, more: seq<Action>,
                                                t: State)
    requires Reaches(s0, acts, s) && s.pc.Dispatching? && s.batch != [] && s.batch[0] == e.fd
    requires e in s.list && !OpenFor(s.k, e) && FirstMatch(s.list, e.fd) == Some(e)
    requires Exec(Apply(s, Dispatch), more) == Some(t) && BetweenHandlers(t.pc)
    ensures e !in t.list && Goodbyes(t.log, e) == 1
  {
    StructureAlways(s0, acts, s);
    StructureStep(s, Dispatch);
    NoGoodbyeYet(s0, acts, s, e);
    LeavesForGood(Apply(s, Dispatch), e, more, t);
  }

  /** Between handlers, another entry that a search finds first shadows this one. */
  lemma NewerThan(s: State, x: Entry, e: Entry)
    requires Structure(s) && s.pc.Dispatching?
    requires e in s.list && x in s.list && x.fd == e.fd && x != e && x.conn >= e.conn
    ensures Shadows(s, x, e)
  {
    var i :| 0 <= i < |s.list| && s.list[i] == x;
    var j :| 0 <= j < |s.list| && s.list[j] == e;
    assert s.list[i].conn != s.list[j].conn;
  }

  /** An event for a reused descriptor passes the old entry by. */
  lemma EventPassesBy(s: State, e: Entry)
    requires Sound(s) && Enabled(s, Dispatch) && s.batch[0] == e.fd
    requires e in s.list && !OpenFor(s.k, e) && FirstMatch(s.list, e.fd) != Some(e)
    ensures Leaked(Apply(s, Dispatch), e)
  {
    MatchIsNewest(s, e);
    FirstMatchMeans(s.list, e.fd);
    NewerThan(s, FirstMatch(s.list, e.fd).value, e);
    LeakedDispatch(s, e, Dispatch);
  }

  /** If the descriptor has been reused meanwhile, the event goes to the new client and the old entry leaks. */
  lemma {:induction false} ReusedDescriptorLeaks(s0: State, acts: seq<Action>, s: State, e: Entry, more: seq<Action>,
                                                 t: State)
    requires Reaches(s0, acts, s) && s.pc.Dispatching? && s.batch != [] && s.batch[0] == e.fd
    requires e in s.list && !OpenFor(s.k, e) && FirstMatch(s.list, e.fd) != Some(e)
    requires Exec(Apply(s, Dispatch), more) == Some(t)
    ensures e in t.list && Goodbyes(t.log, e) == 0
  {
    SoundAlways(s0, acts, s);
    SoundStep(s, Dispatch);
    EventPassesBy(s, e);
    NoGoodbyeYet(s0, acts, s, e);
    GoodbyesEffect(s, Dispatch, e);
    LeakedForever(Apply(s, Dispatch), e, more, t);
  }

  /** So the event decides: the client is cleaned up exactly when it is the newest with its descriptor. */
  lemma EventCleansUpIffNewest(s0: State, acts: seq<Action>, s: State, e: Entry)
    requires Reaches(s0, acts, s) && s.pc.Dispatching? && s.batch != [] && s.batch[0] == e.fd
    requires e in s.list && !OpenFor(s.k, e)
    ensures AlwaysCleanedUp(Apply(s, Dispatch), e) <==> FirstMatch(s.list, e.fd) == Some(e)
  {
    var after := Apply(s, Dispatch);
    if FirstMatch(s.list, e.fd) == Some(e) {
      forall more, t | Exec(after, more) == Some(t) && BetweenHandlers(t.pc)
        ensures e !in t.list && Goodbyes(t.log, e) == 1
      {
        WaitingEventCleansUp(s0, acts, s, e, more, t);
      }
    } else {
      SoundAlways(s0, acts, s);
      SoundStep(s, Dispatch);
      var more, t := HandlerCanEnd(after);
      ReusedDescriptorLeaks(s0, acts, s, e, more, t);
    }
  }
}
