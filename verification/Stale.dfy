/**
 Stale entries: clients whose socket was closed by socket_server_disconnect while their entry stayed
 in the list. Every run has at most as many as it made such calls, and without such calls the three
 views of the clients agree exactly.
 */
module Stale {
  import opened Bytes
  import opened ClientList
  import opened Os
  import opened EventLoop
  import opened Agreement

  function StaleCount(list: seq<Entry>, k: Kernel): nat {
    if list == [] then 0
    else (if OpenFor(k, list[0]) then 0 else 1) + StaleCount(list[1..], k)
  }

  /** The sockets of the live entries. */
  function LiveFds(list: seq<Entry>, k: Kernel): set<int> {
    set e | e in list && OpenFor(k, e) :: e.fd
  }

  lemma {:induction false} SameStale(list: seq<Entry>, k: Kernel, k': Kernel)
    requires forall e :: e in list ==> OpenFor(k, e) == OpenFor(k', e)
    ensures StaleCount(list, k) == StaleCount(list, k')
  {
    if list != [] {
      SameStale(list[1..], k, k');
    }
  }

  /** Closing one descriptor makes at most one entry stale. */
  lemma {:induction false} CloseMakesAtMostOneStale(list: seq<Entry>, k: Kernel, fd: int)
    requires DistinctConns(list)
    ensures StaleCount(list, Close(k, fd)) <= StaleCount(list, k) + 1
  {
    if list != [] {
      if OpenFor(k, list[0]) && list[0].fd == fd {
        SameStale(list[1..], k, Close(k, fd));
      } else {
        CloseMakesAtMostOneStale(list[1..], k, fd);
      }
    }
  }

  lemma {:induction false} StaleSplit(a: seq<Entry>, b: seq<Entry>, k: Kernel)
    ensures StaleCount(a + b, k) == StaleCount(a, k) + StaleCount(b, k)
  {
    if a == [] {
      assert a + b == b;
    } else {
      assert (a + b)[1..] == a[1..] + b;
      StaleSplit(a[1..], b, k);
    }
  }

  lemma {:induction false} RemoveNeverAddsStale(list: seq<Entry>, fd: int, k: Kernel)
    ensures StaleCount(RemoveFirst(list, fd), k) <= StaleCount(list, k)
  {
    var i := FirstIndex(list, fd);
    if i < |list| {
      assert list == list[..i] + list[i..];
      StaleSplit(list[..i], list[i..], k);
      StaleSplit(list[..i], list[i + 1..], k);
      assert list[i..][1..] == list[i + 1..];
    }
  }

  /** Live and stale entries make up the list, and live entries have distinct sockets. */
  lemma {:induction false} ListIsLivePlusStale(list: seq<Entry>, k: Kernel)
    requires DistinctConns(list)
    ensures |list| == |LiveFds(list, k)| + StaleCount(list, k)
  {
    if list == [] {
      assert LiveFds(list, k) == {};
    } else {
      var rest := list[1..];
      ListIsLivePlusStale(rest, k);
      var e := list[0];
      if OpenFor(k, e) {
        assert e.fd !in LiveFds(rest, k);
        assert LiveFds(list, k) == {e.fd} + LiveFds(rest, k);
      } else {
        assert LiveFds(list, k) == LiveFds(rest, k);
      }
    }
  }

  lemma {:induction false} NoStaleMeansAllLive(list: seq<Entry>, k: Kernel)
    requires StaleCount(list, k) == 0
    ensures forall e :: e in list ==> OpenFor(k, e)
  {
    if list != [] {
      NoStaleMeansAllLive(list[1..], k);
    }
  }

  ghost predicate StaleBound(s: State) {
    StaleCount(s.list, s.k) <= CloseCalls(s.log)
  }

  /** Actions other than close, add and remove change neither the list nor who is live in it. */
  lemma SameLiveEntries(s: State, a: Action)
    requires Structure(s) && Enabled(s, a)
    requires !a.Disconnect? && !a.AddClient? && !a.WatchError? && !a.Forget?
    ensures Apply(s, a).list == s.list
    ensures forall e :: e in s.list ==> OpenFor(s.k, e) == OpenFor(Apply(s, a).k, e)
  {
  }

  lemma StaleForget(s: State)
    requires Structure(s) && s.pc.Closing?
    ensures StaleCount(Apply(s, Forget).list, Apply(s, Forget).k) <= StaleCount(s.list, s.k)
  {
    var fd := s.pc.e.fd;
    MatchIsListed(s, fd);
    RemoveTakesExactlyTheMatch(s.list, fd);
    RemoveNeverAddsStale(s.list, fd, s.k);
    SameStale(RemoveFirst(s.list, fd), s.k, Close(s.k, fd));
  }

  /** Only socket_server_disconnect can add a stale entry, one at a time. */
  lemma StaleStep(s: State, a: Action)
    requires Structure(s) && Enabled(s, a)
    ensures StaleCount(Apply(s, a).list, Apply(s, a).k) <= StaleCount(s.list, s.k) + if a.Disconnect? then 1 else 0
  {
    if a.Disconnect? {
      CloseMakesAtMostOneStale(s.list, s.k, a.e.fd);
    } else if a.AddClient? {
      assert ([s.pc.e] + s.list)[1..] == s.list;
    } else if a.WatchError? {
      RemoveNeverAddsStale(s.list, s.pc.e.fd, s.k);
    } else if a.Forget? {
      StaleForget(s);
    } else {
      SameLiveEntries(s, a);
      SameStale(s.list, s.k, Apply(s, a).k);
    }
  }

  lemma CloseCallsEffect(s: State, a: Action)
    requires Enabled(s, a)
    ensures CloseCalls(Apply(s, a).log) == CloseCalls(s.log) + if a.Disconnect? then 1 else 0
  {
    LogEffect(s, a);
    if EventOf(s, a).Some? {
      CloseCallsStep(s.log, EventOf(s, a).value);
    }
  }

  lemma {:induction false} StaleBoundAlways(s0: State, acts: seq<Action>, s: State)
    requires Reaches(s0, acts, s)
    ensures StaleBound(s)
  {
    if acts != [] {
      var prefix, before, a := LastAction(s0, acts, s);
      StaleBoundAlways(s0, prefix, before);
      StructureAlways(s0, prefix, before);
      StaleStep(before, a);
      CloseCallsEffect(before, a);
    }
  }

  // ----- what a reader can rely on -----

  /** Between two handlers: no handler is under way. */
  predicate BetweenHandlers(pc: Pc) {
    pc.Waiting? || pc.Dispatching? || pc.Stopping?
  }

  /**
   Every run, with any number of socket_server_disconnect calls: client_count is the open sockets
   (but the one in flight) plus the stale entries; these are bounded by the number of calls; and
   every live entry is the newest with its fd, so that find and remove hit it.
   */
  lemma CountIsOpenPlusStale(s0: State, acts: seq<Action>, s: State)
    requires Reaches(s0, acts, s)
    ensures |s.list| == |s.k.open.Keys - InFlight(s.pc)| + StaleCount(s.list, s.k)
    ensures StaleCount(s.list, s.k) <= CloseCalls(s.log)
    ensures |s.list| <= CLIENT_MAX_CLIENTS
    ensures forall e :: e in s.list && OpenFor(s.k, e) ==> FirstMatch(s.list, e.fd) == Some(e)
  {
    StructureAlways(s0, acts, s);
    StaleBoundAlways(s0, acts, s);
    ListIsLivePlusStale(s.list, s.k);
    forall fd | fd in s.k.open.Keys - InFlight(s.pc)
      ensures fd in LiveFds(s.list, s.k)
    {
      FirstMatchMeans(s.list, fd);
      assert Entry(fd, s.k.open[fd]) in s.list;
    }
    assert LiveFds(s.list, s.k) == s.k.open.Keys - InFlight(s.pc);
  }

  function FdsOf(list: seq<Entry>): set<int> {
    set e | e in list :: e.fd
  }

  ghost predicate DistinctFds(list: seq<Entry>) {
    forall i, j :: 0 <= i < j < |list| ==> list[i].fd != list[j].fd
  }

  /**
   Without socket_server_disconnect, between two handlers: the open client sockets, the sockets in
   the client list (without duplicates) and the epoll set minus the listening socket are one set,
   client_count is its size and is at most 1000.
   */
  lemma ThreeWayAgreement(s0: State, acts: seq<Action>, s: State)
    requires Reaches(s0, acts, s) && CloseCalls(s.log) == 0 && BetweenHandlers(s.pc)
    ensures s.k.open.Keys == FdsOf(s.list) == s.k.watched - {s.k.listenFd}
    ensures DistinctFds(s.list)
    ensures |s.list| == |s.k.open.Keys| <= CLIENT_MAX_CLIENTS
  {
    StructureAlways(s0, acts, s);
    CountIsOpenPlusStale(s0, acts, s);
    NoStaleMeansAllLive(s.list, s.k);
    assert s.k.open.Keys - InFlight(s.pc) == s.k.open.Keys;
    forall fd | fd in s.k.open
      ensures fd in FdsOf(s.list)
    {
      FirstMatchMeans(s.list, fd);
      assert Entry(fd, s.k.open[fd]) in s.list;
    }
    LiveEntriesHaveDistinctFds(s.list, s.k);
  }

  lemma LiveEntriesHaveDistinctFds(list: seq<Entry>, k: Kernel)
    requires DistinctConns(list) && forall e :: e in list ==> OpenFor(k, e)
    ensures DistinctFds(list)
  {
    forall i, j | 0 <= i < j < |list|
      ensures list[i].fd != list[j].fd
    {
      assert OpenFor(k, list[i]) && OpenFor(k, list[j]);
    }
  }
}
