/**
 The operating system the server runs on, as a value. Connections are numbered in the order in which
 they arrive; the listen backlog is every connection that arrived and was not accepted yet, oldest
 first. Everything the outside world still does is paid for from `supply`: a byte, a connection, an
 end of stream, a reset, a spurious wake-up or a signal costs one unit, so a finite supply is a world
 that does finitely many things.
 */
module Os {
  import opened Bytes

  const BUFFER_SIZE := 1024
  const EPOLL_MAX_EVENTS := 64

  /** One connection: what the peer has sent so far and what of it is still in the receive buffer. */
  datatype Conn = Conn(sent: seq<Byte>, buffered: seq<Byte>, eof: bool, reset: bool)

  /** True when a recv would not report "try again". */
  predicate Readable(c: Conn) {
    c.buffered != [] || c.eof || c.reset
  }

  /** The calls that may fail for a reason outside this model: descriptors or memory run out, and the like. */
  datatype Faults = Faults(accept: bool, fcntl: bool, memory: bool, epollCtl: bool, recv: bool, epollWait: bool)

  const NO_FAULTS := Faults(false, false, false, false, false, false)

  datatype Kernel = Kernel(
    faults: Faults,
    listenFd: int,
    conns: seq<Conn>,      // every connection that ever arrived
    accepted: nat,         // how many of them were accepted; the rest is the backlog
    open: map<int, nat>,   // open client sockets, each with its connection
    watched: set<int>,     // the epoll interest set
    edges: set<int>,       // edges not yet reported by epoll_wait
    supply: nat)

  predicate IsOpen(k: Kernel, fd: int) {
    fd in k.open && k.open[fd] < |k.conns|
  }

  function ConnAt(k: Kernel, fd: int): Conn
    requires IsOpen(k, fd)
  {
    k.conns[k.open[fd]]
  }

  function Backlog(k: Kernel): nat {
    if k.accepted < |k.conns| then |k.conns| - k.accepted else 0
  }

  // ----- the outside world -----

  datatype Move =
    | Connect
    | Data(conn: nat, bytes: seq<Byte>)
    | Eof(conn: nat)
    | Reset(conn: nat)
    | Spurious(fd: int)

  function Cost(m: Move): nat {
    if m.Data? then |m.bytes| else 1
  }

  predicate Possible(k: Kernel, m: Move) {
    && Cost(m) <= k.supply
    && match m
       case Connect => true
       case Data(c, bytes) => c < |k.conns| && !k.conns[c].eof && !k.conns[c].reset && bytes != []
       case Eof(c) => c < |k.conns| && !k.conns[c].eof && !k.conns[c].reset
       case Reset(c) => c < |k.conns| && !k.conns[c].reset
       case Spurious(fd) => fd in k.watched
  }

  /** The watched sockets of one connection: those that get an edge when something arrives on it. */
  function Signalled(k: Kernel, conn: nat): set<int> {
    set fd | fd in k.watched && fd in k.open && k.open[fd] == conn
  }

  function Happen(k: Kernel, m: Move): Kernel
    requires Possible(k, m)
  {
    var rest := k.supply - Cost(m);
    match m
    case Connect =>
      k.(conns := k.conns + [Conn([], [], false, false)],
         edges := k.edges + (k.watched * {k.listenFd}),
         supply := rest)
    case Data(c, bytes) =>
      var conn := k.conns[c];
      k.(conns := k.conns[c := conn.(sent := conn.sent + bytes, buffered := conn.buffered + bytes)],
         edges := k.edges + Signalled(k, c),
         supply := rest)
    case Eof(c) =>
      k.(conns := k.conns[c := k.conns[c].(eof := true)],
         edges := k.edges + Signalled(k, c),
         supply := rest)
    case Reset(c) =>
      k.(conns := k.conns[c := k.conns[c].(reset := true)],
         edges := k.edges + Signalled(k, c),
         supply := rest)
    case Spurious(fd) =>
      k.(edges := k.edges + {fd}, supply := rest)
  }

  // ----- system calls -----

  /** accept may return any descriptor that is not in use. */
  predicate CanAccept(k: Kernel, fd: int) {
    && k.accepted < |k.conns|
    && 0 <= fd && fd != k.listenFd && fd !in k.open
  }

  /** The lowest number from n on that is not in use. */
  function LowestFree(used: set<int>, n: nat): (fd: nat)
    ensures fd >= n && fd !in used
    decreases |used|
  {
    if n in used then LowestFree(used - {n}, n + 1) else n
  }

  lemma SomeFdIsFree(k: Kernel)
    requires k.accepted < |k.conns|
    ensures CanAccept(k, LowestFree(k.open.Keys + {k.listenFd}, 0))
  {
  }

  function Accept(k: Kernel, fd: int): Kernel
    requires CanAccept(k, fd)
  {
    k.(open := k.open[fd := k.accepted], accepted := k.accepted + 1)
  }

  /** EPOLL_CTL_ADD with EPOLLET: an already readable socket gets its edge at once. */
  function EpollAdd(k: Kernel, fd: int): Kernel
    requires IsOpen(k, fd)
  {
    k.(watched := k.watched + {fd},
       edges := k.edges + if Readable(ConnAt(k, fd)) then {fd} else {})
  }

  function EpollDel(k: Kernel, fd: int): Kernel {
    k.(watched := k.watched - {fd}, edges := k.edges - {fd})
  }

  /** Closing a client socket also drops it from epoll; closing a descriptor that is not open does nothing. */
  function Close(k: Kernel, fd: int): Kernel {
    if fd in k.open then
      k.(open := k.open - {fd}, watched := k.watched - {fd}, edges := k.edges - {fd})
    else k
  }

  predicate CanRecv(k: Kernel, fd: int, n: nat) {
    && IsOpen(k, fd) && !ConnAt(k, fd).reset
    && 1 <= n <= Min(BUFFER_SIZE, |ConnAt(k, fd).buffered|)
  }

  function Recv(k: Kernel, fd: int, n: nat): Kernel
    requires CanRecv(k, fd, n)
  {
    var c := ConnAt(k, fd);
    k.(conns := k.conns[k.open[fd] := c.(buffered := c.buffered[n..])])
  }

  predicate Distinct(fds: seq<int>) {
    forall i, j :: 0 <= i < j < |fds| ==> fds[i] != fds[j]
  }

  /** What a returning epoll_wait may report: up to 64 distinct descriptors with a pending edge. */
  predicate Reportable(k: Kernel, fds: seq<int>) {
    && 1 <= |fds| <= EPOLL_MAX_EVENTS
    && Distinct(fds)
    && forall fd :: fd in fds ==> fd in k.edges
  }

  function Report(k: Kernel, fds: seq<int>): Kernel {
    k.(edges := k.edges - set fd | fd in fds)
  }
}
