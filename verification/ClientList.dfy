/**
 The client list as a value: a newest-first sequence of entries. An entry names the socket the
 server knows a client by and, for the proofs, the connection that socket was accepted for.
 */
module ClientList {
  import opened Bytes

  const CLIENT_MAX_CLIENTS := 1000

  datatype Entry = Entry(fd: int, conn: nat)

  /** Position of the newest entry with this fd, or the length of the list. */
  function FirstIndex(list: seq<Entry>, fd: int): (k: nat)
    ensures k <= |list|
    ensures k < |list| ==> list[k].fd == fd
    ensures forall j :: 0 <= j < k ==> list[j].fd != fd
  {
    if list == [] then 0
    else if list[0].fd == fd then 0
    else 1 + FirstIndex(list[1..], fd)
  }

  function FirstMatch(list: seq<Entry>, fd: int): Option<Entry> {
    var k := FirstIndex(list, fd);
    if k < |list| then Some(list[k]) else None
  }

  function RemoveFirst(list: seq<Entry>, fd: int): seq<Entry> {
    var k := FirstIndex(list, fd);
    if k < |list| then list[..k] + list[k + 1..] else list
  }

  ghost predicate DistinctConns(list: seq<Entry>) {
    forall i, j :: 0 <= i < j < |list| ==> list[i].conn != list[j].conn
  }

  lemma {:induction false} FirstIndexIs(list: seq<Entry>, fd: int, k: nat)
    requires k <= |list|
    requires k < |list| ==> list[k].fd == fd
    requires forall j :: 0 <= j < k ==> list[j].fd != fd
    ensures FirstIndex(list, fd) == k
  {
  }

  lemma FirstMatchMeans(list: seq<Entry>, fd: int)
    ensures FirstMatch(list, fd).Some? ==> FirstMatch(list, fd).value in list && FirstMatch(list, fd).value.fd == fd
    ensures FirstMatch(list, fd).None? ==> forall e :: e in list ==> e.fd != fd
  {
  }

  lemma RemoveNewest(e: Entry, list: seq<Entry>)
    ensures RemoveFirst([e] + list, e.fd) == list
  {
    assert FirstIndex([e] + list, e.fd) == 0;
  }

  /** A new entry hides older ones with its fd and no others. */
  lemma FirstMatchCons(e: Entry, list: seq<Entry>, fd: int)
    ensures FirstMatch([e] + list, fd) == if e.fd == fd then Some(e) else FirstMatch(list, fd)
  {
    assert ([e] + list)[1..] == list;
  }

  /** Removal of one fd never changes what a search for another fd finds. */
  lemma RemoveKeepsOthers(list: seq<Entry>, fd: int, g: int)
    requires g != fd
    ensures FirstMatch(RemoveFirst(list, fd), g) == FirstMatch(list, g)
  {
    var k, m, after := FirstIndex(list, fd), FirstIndex(list, g), RemoveFirst(list, fd);
    if k < |list| {
      assert forall j :: 0 <= j < |after| ==> after[j] == if j < k then list[j] else list[j + 1];
      FirstIndexIs(after, g, if m < k then m else m - 1);
    }
  }

  /** With distinct connections, removal takes out exactly the entry that a search would find. */
  lemma RemoveTakesExactlyTheMatch(list: seq<Entry>, fd: int)
    requires DistinctConns(list)
    ensures var after := RemoveFirst(list, fd);
            && DistinctConns(after)
            && (forall e :: e in after <==> e in list && Some(e) != FirstMatch(list, fd))
            && |after| == |list| - if FirstMatch(list, fd).Some? then 1 else 0
  {
    var k, after := FirstIndex(list, fd), RemoveFirst(list, fd);
    if k < |list| {
      assert forall j :: 0 <= j < |after| ==> after[j] == if j < k then list[j] else list[j + 1];
      forall e | e in list && e != list[k]
        ensures e in after
      {
        var j :| 0 <= j < |list| && list[j] == e;
        assert after[if j < k then j else j - 1] == e;
      }
    }
  }

  lemma ConsKeepsDistinct(e: Entry, list: seq<Entry>)
    requires DistinctConns(list)
    requires forall x :: x in list ==> x.conn != e.conn
    ensures DistinctConns([e] + list)
  {
  }
}
