/**
 The client manager: a heap-allocated singly linked list, newest client first. Each node is proved to
 hold its place in the sequence `nodes`; Entries() is the client list as the state machine sees it.
 */
module ClientManagement {
  import opened Bytes
  import opened ClientList

  class ClientNode {
    const fd: int
    const addr: int              // the peer's address, opaque here
    ghost const conn: nat        // the connection the descriptor was accepted for
    var next: ClientNode?

    constructor (fd: int, addr: int, ghost conn: nat, next: ClientNode?)
      ensures this.fd == fd && this.addr == addr && this.conn == conn && this.next == next
    {
      this.fd, this.addr, this.conn, this.next := fd, addr, conn, next;
    }
  }

  ghost function EntriesOf(nodes: seq<ClientNode>): (r: seq<Entry>)
    ensures |r| == |nodes|
    ensures forall i :: 0 <= i < |r| ==> r[i] == Entry(nodes[i].fd, nodes[i].conn)
  {
    seq(|nodes|, i requires 0 <= i < |nodes| => Entry(nodes[i].fd, nodes[i].conn))
  }

  /** The node at position i, or null at the end of the list. */
  ghost function NodeAt(nodes: seq<ClientNode>, i: nat): ClientNode? {
    if i < |nodes| then nodes[i] else null
  }

  lemma {:induction false} EntriesAfterRemoval(nodes: seq<ClientNode>, fd: int, i: nat)
    requires i == FirstIndex(EntriesOf(nodes), fd) && i < |nodes|
    ensures EntriesOf(nodes[..i] + nodes[i + 1..]) == RemoveFirst(EntriesOf(nodes), fd)
  {
    var after := nodes[..i] + nodes[i + 1..];
    assert forall j :: 0 <= j < |after| ==> after[j] == nodes[if j < i then j else j + 1];
  }

  /** The places of the nodes around a removed one. */
  lemma SpliceOut(nodes: seq<ClientNode>, i: nat)
    requires i < |nodes|
    ensures var after := nodes[..i] + nodes[i + 1..];
            && |after| == |nodes| - 1
            && (forall j :: 0 <= j < |after| ==> after[j] == nodes[if j < i then j else j + 1])
            && (forall j :: 0 <= j <= |after| ==> NodeAt(after, j) == NodeAt(nodes, if j < i then j else j + 1))
  {
  }

  class ClientManager {
    var clients: ClientNode?
    var clientCount: int
    ghost var nodes: seq<ClientNode>
    ghost var Repr: set<ClientNode>   // every node ever linked

    /** The list is acyclic, ends in null, holds each node once, and clientCount is its length. */
    ghost predicate Valid()
      reads this, Repr
    {
      && (forall n :: n in nodes ==> n in Repr)
      && clients == NodeAt(nodes, 0)
      && (forall i :: 0 <= i < |nodes| ==> nodes[i].next == NodeAt(nodes, i + 1))
      && (forall i, j :: 0 <= i < j < |nodes| ==> nodes[i] != nodes[j])
      && clientCount == |nodes| <= CLIENT_MAX_CLIENTS
    }

    ghost function Entries(): seq<Entry>
      reads this
    {
      EntriesOf(nodes)
    }

    constructor ()
      ensures Valid() && nodes == [] && Repr == {}
    {
      clients, clientCount, nodes, Repr := null, 0, [], {};
    }

    /** Prepends a client; gives null and changes nothing exactly when 1000 are listed or malloc fails. */
    method Add(fd: int, addr: int, outOfMemory: bool, ghost conn: nat) returns (client: ClientNode?)
      requires Valid()
      modifies this
      ensures Valid()
      ensures fresh(Repr - old(Repr)) && old(Repr) <= Repr
      ensures client == null <==> outOfMemory || old(clientCount) >= 1000
      ensures client == null ==> nodes == old(nodes)
      ensures client != null ==>
                && fresh(client) && client.fd == fd && client.addr == addr && client.conn == conn
                && nodes == [client] + old(nodes)
      ensures client != null ==> Entries() == [Entry(fd, conn)] + old(Entries())
    {
      if clientCount >= CLIENT_MAX_CLIENTS {
        return null;
      }
      if outOfMemory {
        return null;
      }
      var node := new ClientNode(fd, addr, conn, clients);
      clients := node;
      clientCount := clientCount + 1;
      nodes := [node] + nodes;
      Repr := Repr + {node};
      return node;
    }

    /** The newest client with this descriptor, or null if there is none. */
    method Find(fd: int) returns (client: ClientNode?)
      requires Valid()
      ensures client == NodeAt(nodes, FirstIndex(Entries(), fd))
      ensures FirstMatch(Entries(), fd) == if client == null then None else Some(Entry(client.fd, client.conn))
      ensures client != null ==> client.fd == fd
    {
      var node := clients;
      ghost var i := 0;
      while node != null
        invariant 0 <= i <= |nodes| && node == NodeAt(nodes, i)
        invariant forall j :: 0 <= j < i ==> nodes[j].fd != fd
        decreases |nodes| - i
      {
        if node.fd == fd {
          FirstIndexIs(Entries(), fd, i);
          return node;
        }
        node := node.next;
        i := i + 1;
      }
      FirstIndexIs(Entries(), fd, i);
      return null;
    }

    /** Makes the link in front of position i skip the node there: the head of the list, or prev.next. */
    method Unlink(prev: ClientNode?, node: ClientNode, ghost i: nat)
      requires Valid() && i < |nodes| && node == nodes[i]
      requires prev == if i == 0 then null else nodes[i - 1]
      modifies this, (if prev == null then {} else {prev})`next
      ensures Valid() && Repr == old(Repr)
      ensures nodes == old(nodes)[..i] + old(nodes)[i + 1..]
    {
      if prev == null {
        clients := node.next;
      } else {
        prev.next := node.next;
      }
      clientCount := clientCount - 1;
      SpliceOut(nodes, i);
      nodes := nodes[..i] + nodes[i + 1..];
    }

    /**
     Unlinks the newest client with this descriptor, through the link that points at it. Every other
     node stays where it is; at most one link, the one in front of the node, is changed.
     */
    method Remove(fd: int) returns (ghost freed: ClientNode?)
      requires Valid()
      modifies this, Repr`next
      ensures Valid() && Repr == old(Repr)
      ensures freed == NodeAt(old(nodes), FirstIndex(old(Entries()), fd))
      ensures var i := FirstIndex(old(Entries()), fd);
              && nodes == (if i < |old(nodes)| then old(nodes)[..i] + old(nodes)[i + 1..] else old(nodes))
              && forall j :: 0 <= j < |old(nodes)| && j + 1 != i ==> old(nodes)[j].next == old(nodes[j].next)
      ensures Entries() == RemoveFirst(old(Entries()), fd)
    {
      var prev: ClientNode? := null;
      var node := clients;
      ghost var i := 0;
      while node != null && node.fd != fd
        invariant 0 <= i <= |nodes| && node == NodeAt(nodes, i)
        invariant prev == if i == 0 then null else nodes[i - 1]
        invariant forall j :: 0 <= j < i ==> nodes[j].fd != fd
        decreases |nodes| - i
      {
        prev, node := node, node.next;
        i := i + 1;
      }
      FirstIndexIs(Entries(), fd, i);
      if node != null {
        EntriesAfterRemoval(nodes, fd, i);
        Unlink(prev, node, i);
      }
      return node;
    }

    method Count() returns (n: int)
      requires Valid()
      ensures n == |Entries()|
    {
      return clientCount;
    }

    /** Walks the list and frees every node exactly once, reading each link before its node is freed. */
    method Destroy() returns (freed: seq<ClientNode>)
      requires Valid()
      ensures freed == nodes
      ensures forall i, j :: 0 <= i < j < |freed| ==> freed[i] != freed[j]
    {
      freed := [];
      var node := clients;
      while node != null
        invariant |freed| <= |nodes| && freed == nodes[..|freed|] && node == NodeAt(nodes, |freed|)
        decreases |nodes| - |freed|
      {
        var next := node.next;
        freed := freed + [node];
        node := next;
      }
    }

    /** Some client in the list: user code may hold a pointer to any of them. */
    method AnyClient() returns (client: ClientNode?)
      requires Valid()
      ensures client != null ==> client in nodes && Entry(client.fd, client.conn) in Entries()
    {
      client := clients;
      var hops: nat := *;
      ghost var i := 0;
      while client != null && hops > 0
        invariant 0 <= i <= |nodes| && client == NodeAt(nodes, i)
        decreases hops
      {
        client := client.next;
        hops, i := hops - 1, i + 1;
      }
      if client != null {
        assert Entries()[i] == Entry(client.fd, client.conn);
      }
    }
  }
}
