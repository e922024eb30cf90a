/**
 What the user callbacks observe: a well-formed history for each connection and for each descriptor,
 and exactly the bytes the peer sent, in order.
 */
module History {
  import opened Bytes
  import opened ClientList
  import opened Os
  import opened EventLoop
  import opened Agreement
  import opened Stale

  // ----- the life of one connection -----

  /** How far a connection has got, as its callbacks tell it. Broken: they tell an impossible story. */
  datatype Phase = NotYet | Active(fd: int) | Done(fd: int) | Broken

  function PhaseStep(p: Phase, ev: Event, conn: nat): Phase {
    if ev.e.conn != conn then p
    else match ev
      case Connected(e) => if p == NotYet then Active(e.fd) else Broken
      case Received(e, _) => if p == Active(e.fd) then p else Broken
      case Disconnected(e, _) => if p == Active(e.fd) then Done(e.fd) else Broken
      case CloseCall(_) => p
  }

  function PhaseOf(log: seq<Event>, conn: nat): Phase {
    if log == [] then NotYet
    else PhaseStep(PhaseOf(log[..|log| - 1], conn), log[|log| - 1], conn)
  }

  /** The bytes handed to on_received for one connection, in order. */
  function Delivered(log: seq<Event>, conn: nat): seq<Byte> {
    if log == [] then []
    else
      var ev := log[|log| - 1];
      Delivered(log[..|log| - 1], conn) + if ev.Received? && ev.e.conn == conn then ev.data else []
  }

  lemma {:induction false} LogStep(log: seq<Event>, ev: Event, conn: nat)
    ensures PhaseOf(log + [ev], conn) == PhaseStep(PhaseOf(log, conn), ev, conn)
    ensures Delivered(log + [ev], conn)
         == Delivered(log, conn) + if ev.Received? && ev.e.conn == conn then ev.data else []
  {
    assert (log + [ev])[..|log|] == log;
  }

  /** In the list and announced by on_connection, but not yet by on_disconnected. */
  predicate Announced(s: State, e: Entry) {
    e in s.list && s.pc != Listed(e) && s.pc != InDisconnected(e) && s.pc != Closing(e)
  }

  ghost predicate PhasesOk(s: State) {
    && (forall c: nat {:trigger PhaseOf(s.log, c)} :: PhaseOf(s.log, c) != Broken)
    && (forall c: nat {:trigger PhaseOf(s.log, c)} :: c >= s.k.accepted ==> PhaseOf(s.log, c) == NotYet)
    && (forall e :: Announced(s, e) ==> PhaseOf(s.log, e.conn) == Active(e.fd))
    && (s.pc.Accepted? || s.pc.Listed? ==> PhaseOf(s.log, s.pc.e.conn) == NotYet)
  }

  lemma SameAnnouncedRemove(s: State, a: Action)
    requires Structure(s) && Enabled(s, a) && (a.WatchError? || a.Forget?)
    ensures forall e :: Announced(Apply(s, a), e) <==> Announced(s, e)
  {
    var list := RemoveFirst(s.list, s.pc.e.fd);
    MatchIsListed(s, s.pc.e.fd);
    RemoveTakesExactlyTheMatch(s.list, s.pc.e.fd);
    assert forall e :: e in list <==> e in s.list && e != s.pc.e;
    assert Apply(s, a).list == list;
  }

  /** An action without a callback changes nobody's standing. */
  lemma SameAnnounced(s: State, a: Action)
    requires Structure(s) && Enabled(s, a) && EventOf(s, a).None?
    ensures forall e :: Announced(Apply(s, a), e) <==> Announced(s, e)
  {
    if a.WatchError? || a.Forget? {
      SameAnnouncedRemove(s, a);
    } else if a.AddClient? {
      assert forall e :: e in [s.pc.e] + s.list <==> e == s.pc.e || e in s.list;
    } else {
      ListEffect(s, a);
    }
  }

  lemma PhasesQuiet(s: State, a: Action)
    requires Structure(s) && PhasesOk(s) && Enabled(s, a) && EventOf(s, a).None?
    ensures PhasesOk(Apply(s, a))
  {
    LogEffect(s, a);
    SameAnnounced(s, a);
  }

  lemma PhasesLogged(s: State, a: Action, ev: Event)
    requires Structure(s) && PhasesOk(s) && Enabled(s, a) && EventOf(s, a) == Some(ev)
    ensures PhasesOk(Apply(s, a))
  {
    var s' := Apply(s, a);
    forall c: nat
      ensures PhaseOf(s'.log, c) == PhaseStep(PhaseOf(s.log, c), ev, c)
    {
      LogStep(s.log, ev, c);
    }
    if !a.Disconnect? {
      MatchIsListed(s, s.pc.e.fd);
      assert ev.e == s.pc.e && s.pc.e in s.list;
    }
    forall e | Announced(s', e)
      ensures PhaseOf(s'.log, e.conn) == Active(e.fd)
    {
      assert e == ev.e || Announced(s, e);
    }
  }

  lemma PhasesStep(s: State, a: Action)
    requires Structure(s) && PhasesOk(s) && Enabled(s, a)
    ensures PhasesOk(Apply(s, a))
  {
    match EventOf(s, a)
    case None => PhasesQuiet(s, a);
    case Some(ev) => PhasesLogged(s, a, ev);
  }

  lemma {:induction false} PhasesAlways(s0: State, acts: seq<Action>, s: State)
    requires Reaches(s0, acts, s)
    ensures PhasesOk(s)
  {
    if acts != [] {
      var before := Exec(s0, acts[..|acts| - 1]).value;
      PhasesAlways(s0, acts[..|acts| - 1], before);
      StructureAlways(s0, acts[..|acts| - 1], before);
      PhasesStep(before, acts[|acts| - 1]);
    }
  }

  // ----- the same, read off the log by position -----

  /** A callback about this connection. */
  predicate About(ev: Event, conn: nat) {
    !ev.CloseCall? && ev.e.conn == conn
  }

  /** connection received* disconnected?, all with one descriptor. */
  ghost predicate LifeOfOneConnection(log: seq<Event>, conn: nat) {
    && (forall i, j :: 0 <= i < j < |log| && About(log[i], conn) && About(log[j], conn) ==>
          log[i].e == log[j].e && !log[j].Connected? && !log[i].Disconnected?)
    && (forall j :: 0 <= j < |log| && About(log[j], conn) && !log[j].Connected? ==>
          exists i :: 0 <= i < j && log[i] == Connected(log[j].e))
  }

  lemma {:induction false} PrefixIsNotBroken(log: seq<Event>, conn: nat, n: nat)
    requires n <= |log| && PhaseOf(log, conn) != Broken
    ensures PhaseOf(log[..n], conn) != Broken
  {
    if n == |log| {
      assert log[..n] == log;
    } else {
      assert log[..|log| - 1][..n] == log[..n];
      PrefixIsNotBroken(log[..|log| - 1], conn, n);
    }
  }

  lemma {:induction false} NotYetMeansSilent(log: seq<Event>, conn: nat)
    requires PhaseOf(log, conn) == NotYet
    ensures forall i :: 0 <= i < |log| ==> !About(log[i], conn)
  {
    if log != [] {
      var before := log[..|log| - 1];
      NotYetMeansSilent(before, conn);
      assert forall i :: 0 <= i < |before| ==> log[i] == before[i];
    }
  }

  /** An active connection was announced, by the returned event, and all its callbacks agree on the entry. */
  lemma {:induction false} ActiveMeansAnnounced(log: seq<Event>, conn: nat) returns (at: nat)
    requires PhaseOf(log, conn).Active?
    ensures at < |log| && log[at] == Connected(Entry(PhaseOf(log, conn).fd, conn))
    ensures forall i :: 0 <= i < |log| && About(log[i], conn) ==>
              !log[i].Disconnected? && log[i].e == Entry(PhaseOf(log, conn).fd, conn)
  {
    var before, ev := log[..|log| - 1], log[|log| - 1];
    assert forall i :: 0 <= i < |before| ==> log[i] == before[i];
    if PhaseOf(before, conn) == NotYet {
      NotYetMeansSilent(before, conn);
      at := |before|;
    } else {
      at := ActiveMeansAnnounced(before, conn);
    }
  }

  /** A callback after another one of the same connection. */
  lemma {:induction false} LaterCallback(log: seq<Event>, conn: nat, i: nat, j: nat)
    requires PhaseOf(log, conn) != Broken
    requires i < j < |log| && About(log[i], conn) && About(log[j], conn)
    ensures log[i].e == log[j].e && !log[j].Connected? && !log[i].Disconnected?
  {
    var before := log[..j];
    PrefixIsNotBroken(log, conn, j + 1);
    assert log[..j + 1][..j] == before && before[i] == log[i];
    if PhaseOf(before, conn) == NotYet {
      NotYetMeansSilent(before, conn);
      assert false;
    } else {
      var _ := ActiveMeansAnnounced(before, conn);
    }
  }

  lemma {:induction false} PhaseTellsTheLife(log: seq<Event>, conn: nat)
    requires PhaseOf(log, conn) != Broken
    ensures LifeOfOneConnection(log, conn)
  {
    forall i, j | 0 <= i < j < |log| && About(log[i], conn) && About(log[j], conn)
      ensures log[i].e == log[j].e && !log[j].Connected? && !log[i].Disconnected?
    {
      LaterCallback(log, conn, i, j);
    }
    forall j | 0 <= j < |log| && About(log[j], conn) && !log[j].Connected?
      ensures exists i :: 0 <= i < j && log[i] == Connected(log[j].e)
    {
      PrefixIsNotBroken(log, conn, j + 1);
      assert log[..j + 1][..j] == log[..j];
      var i := ActiveMeansAnnounced(log[..j], conn);
      assert log[i] == Connected(log[j].e);
    }
  }

  /**
   On every run, also one with socket_server_disconnect calls, the callbacks of each connection are
   one on_connection, then any number of on_received, then at most one on_disconnected.
   */
  lemma EachConnectionLivesOnce(s0: State, acts: seq<Action>, s: State, conn: nat)
    requires Reaches(s0, acts, s)
    ensures LifeOfOneConnection(s.log, conn)
  {
    PhasesAlways(s0, acts, s);
    PhaseTellsTheLife(s.log, conn);
  }

  // ----- the bytes of one connection -----

  ghost predicate BytesOk(s: State) {
    && (forall c: nat {:trigger Delivered(s.log, c)} :: c < |s.k.conns| ==>
          Delivered(s.log, c) + s.k.conns[c].buffered == s.k.conns[c].sent)
    && (forall c: nat {:trigger Delivered(s.log, c)} :: c >= |s.k.conns| ==> Delivered(s.log, c) == [])
  }

  lemma BytesQuiet(s: State, a: Action)
    requires BytesOk(s) && Enabled(s, a) && !a.RecvData?
    requires forall c: nat :: Delivered(Apply(s, a).log, c) == Delivered(s.log, c)
    ensures BytesOk(Apply(s, a))
  {
    var s' := Apply(s, a);
    forall c: nat | c < |s'.k.conns|
      ensures Delivered(s'.log, c) + s'.k.conns[c].buffered == s'.k.conns[c].sent
    {
      if a.Env? && a.m.Data? && a.m.conn == c {
        var d, b := Delivered(s.log, c), s.k.conns[c].buffered;
        assert d + (b + a.m.bytes) == (d + b) + a.m.bytes;
      }
    }
  }

  lemma BytesReceived(s: State, a: Action)
    requires Structure(s) && BytesOk(s) && Enabled(s, a) && a.RecvData?
    ensures BytesOk(Apply(s, a))
  {
    var s' := Apply(s, a);
    var id, b := s.pc.e.conn, ConnAt(s.k, s.pc.e.fd).buffered;
    MatchIsListed(s, s.pc.e.fd);
    assert s.k.open[s.pc.e.fd] == id;
    forall c: nat
      ensures Delivered(s'.log, c) == Delivered(s.log, c) + if c == id then b[..a.n] else []
    {
      LogStep(s.log, Received(s.pc.e, b[..a.n]), c);
    }
    assert b[..a.n] + b[a.n..] == b;
    assert (Delivered(s.log, id) + b[..a.n]) + b[a.n..] == Delivered(s.log, id) + b;
  }

  lemma BytesStep(s: State, a: Action)
    requires Structure(s) && BytesOk(s) && Enabled(s, a)
    ensures BytesOk(Apply(s, a))
  {
    if a.RecvData? {
      BytesReceived(s, a);
    } else {
      LogEffect(s, a);
      forall c: nat
        ensures Delivered(Apply(s, a).log, c) == Delivered(s.log, c)
      {
        if EventOf(s, a).Some? {
          LogStep(s.log, EventOf(s, a).value, c);
        }
      }
      BytesQuiet(s, a);
    }
  }

  lemma {:induction false} BytesAlways(s0: State, acts: seq<Action>, s: State)
    requires Reaches(s0, acts, s)
    ensures BytesOk(s)
  {
    if acts != [] {
      var prefix, before, a := LastAction(s0, acts, s);
      BytesAlways(s0, prefix, before);
      StructureAlways(s0, prefix, before);
      BytesStep(before, a);
    }
  }

  /** A connection reported as ended by its peer is at its end and drained, from then on. */
  ghost predicate EofsOk(s: State) {
    forall e :: Disconnected(e, ByEof) in s.log ==>
      e.conn < |s.k.conns| && s.k.conns[e.conn].eof && s.k.conns[e.conn].buffered == []
  }

  lemma EofsStep(s: State, a: Action)
    requires Structure(s) && EofsOk(s) && Enabled(s, a)
    ensures EofsOk(Apply(s, a))
  {
    var s' := Apply(s, a);
    forall e | Disconnected(e, ByEof) in s'.log
      ensures e.conn < |s'.k.conns| && s'.k.conns[e.conn].eof && s'.k.conns[e.conn].buffered == []
    {
      if Disconnected(e, ByEof) !in s.log {
        assert a.RecvEof? && e == s.pc.e;
        MatchIsListed(s, e.fd);
        assert OpenFor(s.k, e);
      }
    }
  }

  lemma {:induction false} EofsAlways(s0: State, acts: seq<Action>, s: State)
    requires Reaches(s0, acts, s)
    ensures EofsOk(s)
  {
    if acts != [] {
      var before := Exec(s0, acts[..|acts| - 1]).value;
      EofsAlways(s0, acts[..|acts| - 1], before);
      StructureAlways(s0, acts[..|acts| - 1], before);
      EofsStep(before, acts[|acts| - 1]);
    }
  }

  /**
   Byte conservation, at every point of every run: what on_received was given for a connection,
   followed by what is still buffered, is what its peer has sent. After an end of stream reported
   by on_disconnected it is the whole stream.
   */
  lemma {:induction false} BytesAreConserved(s0: State, acts: seq<Action>, s: State, conn: nat)
    requires Reaches(s0, acts, s) && conn < |s.k.conns|
    ensures Delivered(s.log, conn) + s.k.conns[conn].buffered == s.k.conns[conn].sent
    ensures forall e: Entry :: Disconnected(e, ByEof) in s.log && e.conn == conn ==>
              Delivered(s.log, conn) == s.k.conns[conn].sent
  {
    BytesAlways(s0, acts, s);
    EofsAlways(s0, acts, s);
  }

  // ----- the life of one descriptor, without socket_server_disconnect -----

  datatype Span = Free | Busy(conn: nat) | Garbled

  function SpanStep(p: Span, ev: Event, fd: int): Span {
    if ev.e.fd != fd then p
    else match ev
      case Connected(e) => if p == Free then Busy(e.conn) else Garbled
      case Received(e, _) => if p == Busy(e.conn) then p else Garbled
      case Disconnected(e, _) => if p == Busy(e.conn) then Free else Garbled
      case CloseCall(_) => p
  }

  /** Reads the callbacks for one descriptor against (connection received* disconnected)*. */
  function SpanOf(log: seq<Event>, fd: int): Span {
    if log == [] then Free
    else SpanStep(SpanOf(log[..|log| - 1], fd), log[|log| - 1], fd)
  }

  lemma {:induction false} SpanLogStep(log: seq<Event>, ev: Event, fd: int)
    ensures SpanOf(log + [ev], fd) == SpanStep(SpanOf(log, fd), ev, fd)
  {
    assert (log + [ev])[..|log|] == log;
  }

  /** The descriptors in an open span are those of the given clients. */
  ghost predicate SpansFit(log: seq<Event>, clients: set<Entry>) {
    && (forall fd: int {:trigger SpanOf(log, fd)} :: SpanOf(log, fd) != Garbled)
    && (forall e :: e in clients ==> SpanOf(log, e.fd) == Busy(e.conn))
    && (forall fd: int {:trigger SpanOf(log, fd)} ::
          SpanOf(log, fd).Busy? ==> Entry(fd, SpanOf(log, fd).conn) in clients)
  }

  function AnnouncedClients(s: State): set<Entry> {
    set e | e in s.list && Announced(s, e)
  }

  ghost predicate SpansOk(s: State) {
    SpansFit(s.log, AnnouncedClients(s))
  }

  /** One callback, for the only client with its descriptor. */
  lemma SpansGrow(log: seq<Event>, clients: set<Entry>, ev: Event)
    requires SpansFit(log, clients) && !ev.CloseCall?
    requires ev.Connected? ==> forall e :: e in clients ==> e.fd != ev.e.fd
    requires !ev.Connected? ==> ev.e in clients
    ensures SpansFit(log + [ev],
              if ev.Connected? then clients + {ev.e} else if ev.Disconnected? then clients - {ev.e} else clients)
  {
    forall fd: int
      ensures SpanOf(log + [ev], fd) == SpanStep(SpanOf(log, fd), ev, fd)
    {
      SpanLogStep(log, ev, fd);
    }
  }

  lemma SpansQuiet(s: State, a: Action)
    requires Structure(s) && SpansOk(s) && Enabled(s, a) && EventOf(s, a).None?
    ensures SpansOk(Apply(s, a))
  {
    LogEffect(s, a);
    SameAnnounced(s, a);
    ListEffect(s, a);
    assert AnnouncedClients(Apply(s, a)) == AnnouncedClients(s);
  }

  /** Without stale entries, the entry being served is the only one with its descriptor. */
  lemma OnlyEntry(s: State)
    requires Structure(s) && StaleCount(s.list, s.k) == 0
    requires s.pc.Listed? || s.pc.Receiving?
    ensures s.pc.e in s.list && forall e :: e in s.list && e.fd == s.pc.e.fd ==> e == s.pc.e
  {
    MatchIsListed(s, s.pc.e.fd);
    NoStaleMeansAllLive(s.list, s.k);
    forall e | e in s.list && e.fd == s.pc.e.fd
      ensures e == s.pc.e
    {
      assert OpenFor(s.k, e) && OpenFor(s.k, s.pc.e);
    }
  }

  /** A callback moves the server from the registration or the receive loop of its client into the callback. */
  lemma CallbackMoves(s: State, a: Action, ev: Event)
    requires Enabled(s, a) && !a.Disconnect? && EventOf(s, a) == Some(ev)
    ensures !ev.CloseCall? && Apply(s, a).list == s.list
    ensures s.pc == if ev.Connected? then Listed(ev.e) else Receiving(ev.e)
    ensures Apply(s, a).pc == if ev.Connected? then InConnection(ev.e)
                              else if ev.Received? then InReceived(ev.e) else InDisconnected(ev.e)
  {
  }

  /** How a callback changes who is announced. */
  lemma AnnouncedEffect(s: State, a: Action, ev: Event)
    requires Enabled(s, a) && !a.Disconnect? && EventOf(s, a) == Some(ev)
    requires s.pc.e in s.list
    ensures ev.e == s.pc.e && !ev.CloseCall?
    ensures ev.Connected? <==> ev.e !in AnnouncedClients(s)
    ensures AnnouncedClients(Apply(s, a))
         == if ev.Connected? then AnnouncedClients(s) + {ev.e}
            else if ev.Disconnected? then AnnouncedClients(s) - {ev.e}
            else AnnouncedClients(s)
  {
    CallbackMoves(s, a, ev);
  }

  lemma SpansLogged(s: State, a: Action, ev: Event)
    requires Structure(s) && SpansOk(s) && Enabled(s, a) && !a.Disconnect?
    requires StaleCount(s.list, s.k) == 0 && EventOf(s, a) == Some(ev)
    ensures SpansOk(Apply(s, a))
  {
    OnlyEntry(s);
    AnnouncedEffect(s, a, ev);
    LogEffect(s, a);
    SpansGrow(s.log, AnnouncedClients(s), ev);
  }

  lemma {:induction false} SpansAlways(s0: State, acts: seq<Action>, s: State)
    requires Reaches(s0, acts, s) && CloseCalls(s.log) == 0
    ensures SpansOk(s)
  {
    if acts != [] {
      var prefix, before, a := LastAction(s0, acts, s);
      CloseCallsEffect(before, a);
      SpansAlways(s0, prefix, before);
      StructureAlways(s0, prefix, before);
      StaleBoundAlways(s0, prefix, before);
      match EventOf(before, a)
      case None => SpansQuiet(before, a);
      case Some(ev) => SpansLogged(before, a, ev);
    }
  }

  /** The callbacks for one descriptor, in order. */
  function Project(log: seq<Event>, fd: int): seq<Event> {
    if log == [] then []
    else
      var ev := log[|log| - 1];
      Project(log[..|log| - 1], fd) + if ev.e.fd == fd && !ev.CloseCall? then [ev] else []
  }

  /** connection received*, all of one client. */
  ghost predicate OpenSpan(t: seq<Event>, e: Entry) {
    && t != [] && t[0] == Connected(e)
    && forall i :: 0 < i < |t| ==> t[i].Received? && t[i].e == e
  }

  /** connection received* disconnected, all of one client. */
  ghost predicate ClosedSpan(t: seq<Event>) {
    t != [] && t[|t| - 1].Disconnected? && OpenSpan(t[..|t| - 1], t[|t| - 1].e)
  }

  ghost predicate AllClosed(spans: seq<seq<Event>>) {
    forall i :: 0 <= i < |spans| ==> ClosedSpan(spans[i])
  }

  /** What SpanOf accepts: closed spans followed by nothing or by the open span of the current client. */
  lemma {:induction false} SpansOfDescriptor(log: seq<Event>, fd: int)
    returns (spans: seq<seq<Event>>, last: seq<Event>)
    requires SpanOf(log, fd) != Garbled
    ensures Project(log, fd) == Flatten(spans) + last && AllClosed(spans)
    ensures SpanOf(log, fd) == Free ==> last == []
    ensures SpanOf(log, fd).Busy? ==> OpenSpan(last, Entry(fd, SpanOf(log, fd).conn))
  {
    if log == [] {
      return [], [];
    }
    var before, ev := log[..|log| - 1], log[|log| - 1];
    spans, last := SpansOfDescriptor(before, fd);
    if ev.e.fd == fd && !ev.CloseCall? {
      var longer := last + [ev];
      assert Project(log, fd) == Flatten(spans) + longer;
      if ev.Disconnected? {
        assert longer[..|longer| - 1] == last;
        assert ClosedSpan(longer);
        FlattenSnoc(spans, longer);
        spans, last := spans + [longer], [];
      } else {
        last := longer;
      }
    }
  }

  /**
   Without socket_server_disconnect, the callbacks for any descriptor are closed spans
   (connection received* disconnected) followed by at most one open span, and the descriptor is in an
   open span exactly while an announced client holds it.
   */
  lemma EachDescriptorHasCleanSpans(s0: State, acts: seq<Action>, s: State, fd: int)
    returns (spans: seq<seq<Event>>, last: seq<Event>)
    requires Reaches(s0, acts, s) && CloseCalls(s.log) == 0
    ensures Project(s.log, fd) == Flatten(spans) + last && AllClosed(spans)
    ensures forall c :: Announced(s, Entry(fd, c)) ==> OpenSpan(last, Entry(fd, c))
    ensures last != [] ==> last[0].e.fd == fd && Announced(s, last[0].e) && OpenSpan(last, last[0].e)
  {
    SpansAlways(s0, acts, s);
    spans, last := SpansOfDescriptor(s.log, fd);
    forall c | Announced(s, Entry(fd, c))
      ensures SpanOf(s.log, fd) == Busy(c)
    {
      assert Entry(fd, c) in AnnouncedClients(s);
    }
  }
}
