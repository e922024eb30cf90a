/**
 The client list, the open sockets and the epoll interest set agree, on every run. The invariant
 Structure allows socket_server_disconnect; what it leaves behind is counted as stale entries.
 */
module Agreement {
  import opened Bytes
  import opened ClientList
  import opened Os
  import opened EventLoop

  /** The socket being accepted or thrown away, which is open but not in the client list. */
  function InFlight(pc: Pc): set<int> {
    if pc.Accepted? || pc.Rejecting? then {pc.e.fd} else {}
  }

  /** The socket that is open without being watched. */
  function Unwatched(pc: Pc): set<int> {
    if pc.Accepted? || pc.Rejecting? || pc.Listed? || pc.Closing? then {pc.e.fd} else {}
  }

  predicate OpenFor(k: Kernel, e: Entry) {
    e.fd in k.open && k.open[e.fd] == e.conn
  }

  ghost predicate PcOk(s: State) {
    match s.pc
    case Accepted(e) => OpenFor(s.k, e) && forall x :: x in s.list ==> x.conn != e.conn
    case Rejecting(e) => OpenFor(s.k, e) && forall x :: x in s.list ==> x.conn != e.conn
    case Listed(e) => OpenFor(s.k, e) && FirstMatch(s.list, e.fd) == Some(e)
    case InConnection(e) => FirstMatch(s.list, e.fd) == Some(e)
    case Receiving(e) => FirstMatch(s.list, e.fd) == Some(e)
    case InReceived(e) => FirstMatch(s.list, e.fd) == Some(e)
    case InDisconnected(e) => FirstMatch(s.list, e.fd) == Some(e)
    case Closing(e) => FirstMatch(s.list, e.fd) == Some(e)
    case Starting => s.batch == []
    case Waiting => s.batch == []
    case Stopping => s.batch == []
    case _ => true
  }

  ghost predicate KernelOk(k: Kernel) {
    && k.accepted <= |k.conns|
    && (forall fd :: fd in k.open ==> k.open[fd] < k.accepted)
    && (forall f, g :: f in k.open && g in k.open && k.open[f] == k.open[g] ==> f == g)
    && k.listenFd !in k.open
    && k.edges <= k.watched
  }

  ghost predicate ListOk(k: Kernel, list: seq<Entry>) {
    && DistinctConns(list)
    && |list| <= CLIENT_MAX_CLIENTS
    && forall e :: e in list ==> e.conn < k.accepted && e.fd != k.listenFd
  }

  /** Every open socket but the one in flight is found in the list, as the newest entry with its fd. */
  ghost predicate OpenAreListed(k: Kernel, list: seq<Entry>, inFlight: set<int>) {
    forall fd :: fd in k.open && fd !in inFlight ==> FirstMatch(list, fd) == Some(Entry(fd, k.open[fd]))
  }

  ghost predicate Structure(s: State) {
    && KernelOk(s.k)
    && ListOk(s.k, s.list)
    && OpenAreListed(s.k, s.list, InFlight(s.pc))
    && s.k.watched == {s.k.listenFd} + (s.k.open.Keys - Unwatched(s.pc))
    && PcOk(s)
  }

  // ----- every action keeps Structure -----

  lemma MatchIsListed(s: State, fd: int)
    requires Structure(s)
    ensures FirstMatch(s.list, fd).Some? ==>
              var e := FirstMatch(s.list, fd).value; e in s.list && e.fd == fd && fd != s.k.listenFd
  {
    FirstMatchMeans(s.list, fd);
  }

  lemma StructureEnv(s: State, m: Move)
    requires Structure(s) && Enabled(s, Env(m))
    ensures Structure(Apply(s, Env(m)))
  {
  }

  lemma StructureClose(s: State, a: Action)
    requires Structure(s) && Enabled(s, a) && (a.Disconnect? || a.RejectClose?)
    ensures Structure(Apply(s, a))
  {
    var s' := Apply(s, a);
    var fd := if a.Disconnect? then a.e.fd else s.pc.e.fd;
    if a.Disconnect? {
      assert fd != s.k.listenFd;
    }
    assert s'.k.open.Keys == s.k.open.Keys - {fd};
    assert s'.k.watched == {s.k.listenFd} + (s'.k.open.Keys - Unwatched(s'.pc));
  }

  lemma StructureLoop(s: State, a: Action)
    requires Structure(s) && Enabled(s, a)
    requires a.Stop? || a.Begin? || a.Wait? || a.WaitInterrupted? || a.WaitFailed? || a.NextRound? || a.Dispatch?
    ensures Structure(Apply(s, a))
  {
    if a.Dispatch? {
      FirstMatchMeans(s.list, s.batch[0]);
    }
  }

  lemma StructureAccept(s: State, a: Action)
    requires Structure(s) && Enabled(s, a)
    requires a.AcceptEmpty? || a.AcceptError? || a.AcceptOne? || a.Refuse?
    ensures Structure(Apply(s, a))
  {
    var s' := Apply(s, a);
    assert s'.k.watched == {s.k.listenFd} + (s'.k.open.Keys - Unwatched(s'.pc));
  }

  lemma StructureRegister(s: State, a: Action)
    requires Structure(s) && Enabled(s, a)
    requires a.AddClient? || a.Watch? || a.WatchError?
    ensures Structure(Apply(s, a))
  {
    var s' := Apply(s, a);
    var e := s.pc.e;
    assert s'.k.watched == {s.k.listenFd} + (s'.k.open.Keys - Unwatched(s'.pc));
    if a.AddClient? {
      ConsKeepsDistinct(e, s.list);
      forall fd | fd in s'.k.open
        ensures FirstMatch(s'.list, fd) == Some(Entry(fd, s'.k.open[fd]))
      {
        FirstMatchCons(e, s.list, fd);
      }
    } else if a.WatchError? {
      RemoveTakesExactlyTheMatch(s.list, e.fd);
      FirstMatchMeans(s.list, e.fd);
      forall fd | fd in s'.k.open && fd != e.fd
        ensures FirstMatch(s'.list, fd) == Some(Entry(fd, s'.k.open[fd]))
      {
        RemoveKeepsOthers(s.list, e.fd, fd);
      }
    }
  }

  lemma StructureReceive(s: State, a: Action)
    requires Structure(s) && Enabled(s, a)
    requires a.Return? || a.RecvData? || a.RecvEof? || a.RecvEmpty? || a.RecvError?
    ensures Structure(Apply(s, a))
  {
    var s' := Apply(s, a);
    MatchIsListed(s, s.pc.e.fd);
    assert s'.k.watched == {s.k.listenFd} + (s'.k.open.Keys - Unwatched(s'.pc));
  }

  lemma StructureForget(s: State, a: Action)
    requires Structure(s) && Enabled(s, a) && a.Forget?
    ensures Structure(Apply(s, a))
  {
    var s' := Apply(s, a);
    var e := s.pc.e;
    MatchIsListed(s, e.fd);
    RemoveTakesExactlyTheMatch(s.list, e.fd);
    assert s'.k.open.Keys == s.k.open.Keys - {e.fd};
    assert s'.k.watched == {s.k.listenFd} + (s'.k.open.Keys - Unwatched(s'.pc));
    forall fd | fd in s'.k.open
      ensures FirstMatch(s'.list, fd) == Some(Entry(fd, s'.k.open[fd]))
    {
      RemoveKeepsOthers(s.list, e.fd, fd);
    }
  }

  lemma StructureStep(s: State, a: Action)
    requires Structure(s) && Enabled(s, a)
    ensures Structure(Apply(s, a))
  {
    match a
    case Env(m) => StructureEnv(s, m);
    case Disconnect(_) => StructureClose(s, a);
    case RejectClose => StructureClose(s, a);
    case AcceptEmpty => StructureAccept(s, a);
    case AcceptError => StructureAccept(s, a);
    case AcceptOne(_) => StructureAccept(s, a);
    case Refuse => StructureAccept(s, a);
    case AddClient => StructureRegister(s, a);
    case Watch => StructureRegister(s, a);
    case WatchError => StructureRegister(s, a);
    case Return => StructureReceive(s, a);
    case RecvData(_) => StructureReceive(s, a);
    case RecvEof => StructureReceive(s, a);
    case RecvEmpty => StructureReceive(s, a);
    case RecvError => StructureReceive(s, a);
    case Forget => StructureForget(s, a);
    case _ => StructureLoop(s, a);
  }

  lemma {:induction false} StructureAlways(s0: State, acts: seq<Action>, s: State)
    requires Reaches(s0, acts, s)
    ensures Structure(s)
  {
    if acts != [] {
      var before := Exec(s0, acts[..|acts| - 1]).value;
      StructureAlways(s0, acts[..|acts| - 1], before);
      StructureStep(before, acts[|acts| - 1]);
    }
  }
}
