/**
 Runs that show the fates of a disconnected client (Leaks.dfy) are all met: one step short of each
 theorem there, from any freshly created server.
 */
module Scenarios {
  import opened Bytes
  import opened ClientList
  import opened Os
  import opened EventLoop
  import opened Agreement
  import opened Leaks

  /** A descriptor that is not the listening socket's, and another one. */
  function FreeFd(s: State): int {
    if s.k.listenFd < 0 then 0 else s.k.listenFd + 1
  }

  function First(s: State): Entry {
    Entry(FreeFd(s), 0)
  }

  function Second(s: State): Entry {
    Entry(FreeFd(s) + 1, 1)
  }

  /** The third client gets the descriptor of the first. */
  function Third(s: State): Entry {
    Entry(FreeFd(s), 2)
  }

  const SILENT := Conn([], [], false, false)

  /** A server in the accept loop takes the next connection from the backlog and announces it. */
  lemma NextClientConnects(s0: State, acts: seq<Action>, s: State, e: Entry)
    returns (longer: seq<Action>, t: State)
    requires Reaches(s0, acts, s) && s.pc.Accepting? && |s.list| < CLIENT_MAX_CLIENTS
    requires CanAccept(s.k, e.fd) && e.conn == s.k.accepted && s.k.conns[e.conn] == SILENT
    requires e.fd !in s.k.watched
    ensures Reaches(s0, longer, t)
    ensures t.pc == InConnection(e) && t.list == [e] + s.list && t.batch == s.batch && t.running == s.running
    ensures t.k == s.k.(open := s.k.open[e.fd := e.conn], accepted := e.conn + 1, watched := s.k.watched + {e.fd})
  {
    longer, t := Extend(s0, acts, s, AcceptOne(e.fd));
    longer, t := Extend(s0, longer, t, AddClient);
    longer, t := Extend(s0, longer, t, Watch);
    assert t.k.edges == s.k.edges;
  }

  /** One connection arrives, epoll_wait reports it, and the server is in the accept loop. */
  lemma OneConnectionIsReported(s0: State) returns (acts: seq<Action>, s: State)
    requires Init(s0) && s0.k.supply >= 1
    ensures Reaches(s0, acts, s) && s.pc.Accepting? && s.batch == [] && s.list == [] && s.running
    ensures s.k == Kernel(s0.k.faults, s0.k.listenFd, [SILENT], 0, map[], {s0.k.listenFd}, {}, s0.k.supply - 1)
  {
    var fd := s0.k.listenFd;
    acts, s := Extend(s0, [], s0, Begin);
    acts, s := Extend(s0, acts, s, Env(Connect));
    assert s.k.edges == {fd} && fd in s.k.edges && s.k.conns == [SILENT];
    assert Reportable(s.k, [fd]);
    acts, s := Extend(s0, acts, s, Wait([fd]));
    assert s.k.edges == {};
    acts, s := Extend(s0, acts, s, Dispatch);
  }

  /** One client connects, and the server is in its on_connection. */
  lemma FirstClientConnects(s0: State) returns (acts: seq<Action>, s: State)
    requires Init(s0) && s0.k.supply >= 1
    ensures Reaches(s0, acts, s) && s.pc == InConnection(First(s0)) && s.batch == [] && s.list == [First(s0)]
    ensures s.running && AfterFirst(s0, s.k)
  {
    acts, s := OneConnectionIsReported(s0);
    acts, s := NextClientConnects(s0, acts, s, First(s0));
  }

  predicate AfterFirst(s0: State, k: Kernel) {
    && k.listenFd == s0.k.listenFd && k.conns == [SILENT] && k.accepted == 1 && k.open == map[FreeFd(s0) := 0]
    && k.watched == {s0.k.listenFd, FreeFd(s0)} && k.edges == {} && k.supply == s0.k.supply - 1
  }

  /** The callback is over and the server is back in epoll_wait. */
  lemma FirstClientIsQuiet(s0: State) returns (acts: seq<Action>, s: State)
    requires Init(s0) && s0.k.supply >= 1
    ensures Reaches(s0, acts, s) && s.pc.Waiting? && s.batch == [] && s.list == [First(s0)]
    ensures s.running && AfterFirst(s0, s.k)
  {
    acts, s := FirstClientConnects(s0);
    acts, s := Extend(s0, acts, s, Return);
    acts, s := Extend(s0, acts, s, AcceptEmpty);
    acts, s := Extend(s0, acts, s, NextRound);
  }

  /** The first client has sent a byte, and two connections are queued. */
  lemma FirstClientSends(s0: State) returns (acts: seq<Action>, s: State)
    requires Init(s0) && s0.k.supply >= 4
    ensures Reaches(s0, acts, s) && s.pc.Waiting? && s.batch == [] && s.list == [First(s0)] && s.running
    ensures s.k.edges == {s0.k.listenFd, FreeFd(s0)} == s.k.watched
    ensures s.k.listenFd == s0.k.listenFd && s.k.accepted == 1
    ensures |s.k.conns| == 3 && s.k.conns[1..] == [SILENT, SILENT]
    ensures s.k.open == map[FreeFd(s0) := 0]
  {
    acts, s := FirstClientIsQuiet(s0);
    acts, s := Extend(s0, acts, s, Env(Data(0, [7])));
    assert s.k.edges == {FreeFd(s0)} && |s.k.conns| == 1;
    acts, s := Extend(s0, acts, s, Env(Connect));
    assert s.k.edges == {s0.k.listenFd, FreeFd(s0)} && s.k.conns[1..] == [SILENT];
    acts, s := Extend(s0, acts, s, Env(Connect));
  }

  /** One epoll_wait reports both. */
  lemma BothAreReported(s0: State) returns (acts: seq<Action>, s: State)
    requires Init(s0) && s0.k.supply >= 4
    ensures Reaches(s0, acts, s) && s.pc.Dispatching? && s.batch == [s0.k.listenFd, FreeFd(s0)]
    ensures s.list == [First(s0)] && s.running && s.k.edges == {} && s.k.watched == {s0.k.listenFd, FreeFd(s0)}
    ensures s.k.listenFd == s0.k.listenFd && s.k.accepted == 1
    ensures |s.k.conns| == 3 && s.k.conns[1..] == [SILENT, SILENT]
    ensures s.k.open == map[FreeFd(s0) := 0]
  {
    acts, s := FirstClientSends(s0);
    var fds := [s0.k.listenFd, FreeFd(s0)];
    assert Reportable(s.k, fds);
    acts, s := Extend(s0, acts, s, Wait(fds));
    assert s.k.edges == {};
  }

  /**
   The first client has sent a byte, two more connections are queued, and one epoll_wait reports all
   of it, the listening socket first; the second client's on_connection disconnects the first.
   */
  lemma SecondClientDisconnectsFirst(s0: State) returns (acts: seq<Action>, s: State)
    requires Init(s0) && s0.k.supply >= 4
    ensures Reaches(s0, acts, s) && Enabled(s, Disconnect(First(s0)))
    ensures s.pc == InConnection(Second(s0)) && s.batch == [FreeFd(s0)]
    ensures s.list == [Second(s0), First(s0)] && s.running
    ensures s.k.listenFd == s0.k.listenFd && s.k.accepted == 2 && |s.k.conns| == 3 && s.k.conns[2] == SILENT
    ensures s.k.open == map[FreeFd(s0) := 0, FreeFd(s0) + 1 := 1]
    ensures s.k.watched == {s0.k.listenFd, FreeFd(s0), FreeFd(s0) + 1} && s.k.edges == {}
  {
    acts, s := BothAreReported(s0);
    acts, s := Extend(s0, acts, s, Dispatch);
    acts, s := NextClientConnects(s0, acts, s, Second(s0));
  }

  /** The only connection left in the backlog is accepted, and the accept loop ends. */
  lemma LastClientConnects(s0: State, acts: seq<Action>, s: State, e: Entry)
    returns (longer: seq<Action>, t: State)
    requires Reaches(s0, acts, s) && s.pc.Accepting? && |s.list| < CLIENT_MAX_CLIENTS
    requires CanAccept(s.k, e.fd) && e.conn == s.k.accepted && s.k.conns[e.conn] == SILENT
    requires e.fd !in s.k.watched && e.conn + 1 == |s.k.conns|
    ensures Reaches(s0, longer, t)
    ensures t.pc.Dispatching? && t.list == [e] + s.list && t.batch == s.batch && t.k.listenFd == s.k.listenFd
    ensures t.k.open == s.k.open[e.fd := e.conn]
  {
    longer, t := NextClientConnects(s0, acts, s, e);
    longer, t := Extend(s0, longer, t, Return);
    longer, t := Extend(s0, longer, t, AcceptEmpty);
  }

  /** The hypotheses of the theorem DisconnectElsewhereLeaks are met: its client leaks. */
  lemma ADisconnectCanLeak(s0: State) returns (acts: seq<Action>, s: State, e: Entry)
    requires Init(s0) && s0.k.supply >= 1
    ensures Reaches(s0, acts, s) && Enabled(s, Disconnect(e)) && e.fd !in s.batch && s.pc == InConnection(e)
    ensures !AlwaysCleanedUp(Apply(s, Disconnect(e)), e)
  {
    acts, s := FirstClientConnects(s0);
    e := First(s0);
    DisconnectIsCleanedUpIffInOwnHandler(s0, acts, s, e);
  }

  /** A client disconnected while its event waits can be the newest with its descriptor when it comes up. */
  lemma AWaitingEventCanCleanUp(s0: State) returns (acts: seq<Action>, s: State, e: Entry)
    requires Init(s0) && s0.k.supply >= 4
    ensures Reaches(s0, acts, s) && s.pc.Dispatching? && s.batch == [e.fd]
    ensures e in s.list && !OpenFor(s.k, e) && FirstMatch(s.list, e.fd) == Some(e)
    ensures AlwaysCleanedUp(Apply(s, Dispatch), e)
  {
    acts, s := SecondClientDisconnectsFirst(s0);
    e := First(s0);
    acts, s := Extend(s0, acts, s, Disconnect(e));
    acts, s := Extend(s0, acts, s, Return);
    acts, s := LastClientConnects(s0, acts, s, Entry(FreeFd(s0) + 2, 2));
    FirstMatchCons(Entry(FreeFd(s0) + 2, 2), [Second(s0), e], e.fd);
    FirstMatchCons(Second(s0), [e], e.fd);
    EventCleansUpIffNewest(s0, acts, s, e);
  }

  /** Or the rest of the backlog is accepted first, and the next connection gets its descriptor. */
  lemma ADescriptorCanBeReused(s0: State) returns (acts: seq<Action>, s: State, e: Entry)
    requires Init(s0) && s0.k.supply >= 4
    ensures Reaches(s0, acts, s) && s.pc.Dispatching? && s.batch == [e.fd]
    ensures e in s.list && !OpenFor(s.k, e) && FirstMatch(s.list, e.fd) == Some(Third(s0)) && e != Third(s0)
    ensures !AlwaysCleanedUp(Apply(s, Dispatch), e)
  {
    acts, s := SecondClientDisconnectsFirst(s0);
    e := First(s0);
    acts, s := Extend(s0, acts, s, Disconnect(e));
    acts, s := Extend(s0, acts, s, Return);
    acts, s := LastClientConnects(s0, acts, s, Third(s0));
    FirstMatchCons(Third(s0), [Second(s0), e], e.fd);
    EventCleansUpIffNewest(s0, acts, s, e);
  }
}
