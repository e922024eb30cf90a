/** The calls the server makes into user code, and how they relate to the log of a run. */
module Callbacks {
  import opened Bytes
  import opened ClientList
  import opened EventLoop
  import opened History

  datatype Call =
    | StartCall
    | ConnectionCall(e: Entry)
    | ReceivedCall(e: Entry, data: seq<Byte>)
    | DisconnectedCall(e: Entry)
    | StopCall

  /** The callback an entry of the log stands for; a call from user code stands for none. */
  function CallFor(ev: Event): seq<Call> {
    match ev
    case Connected(e) => [ConnectionCall(e)]
    case Received(e, data) => [ReceivedCall(e, data)]
    case Disconnected(e, _) => [DisconnectedCall(e)]
    case CloseCall(_) => []
  }

  /** The callbacks that a run has got to, on_start first. */
  function CallsOf(log: seq<Event>): (calls: seq<Call>)
    ensures calls != [] && calls[0] == StartCall
  {
    if log == [] then [StartCall] else CallsOf(log[..|log| - 1]) + CallFor(log[|log| - 1])
  }

  lemma {:induction false} CallsStep(log: seq<Event>, ev: Event)
    ensures CallsOf(log + [ev]) == CallsOf(log) + CallFor(ev)
  {
    assert (log + [ev])[..|log|] == log;
  }

  /** The bytes on_received was called with for one connection, in order. */
  function Given(calls: seq<Call>, conn: nat): seq<Byte> {
    if calls == [] then []
    else
      var c := calls[|calls| - 1];
      Given(calls[..|calls| - 1], conn) + if c.ReceivedCall? && c.e.conn == conn then c.data else []
  }

  lemma {:induction false} GivenConcat(a: seq<Call>, b: seq<Call>, conn: nat)
    ensures Given(a + b, conn) == Given(a, conn) + Given(b, conn)
  {
    if b == [] {
      assert a + b == a;
    } else {
      var shorter, c := b[..|b| - 1], b[|b| - 1];
      var last := if c.ReceivedCall? && c.e.conn == conn then c.data else [];
      assert (a + b)[..|a + b| - 1] == a + shorter && (a + b)[|a + b| - 1] == c;
      GivenConcat(a, shorter, conn);
      assert Given(a + b, conn) == Given(a + shorter, conn) + last;
      Regroup(Given(a, conn), Given(shorter, conn), last);
    }
  }

  lemma {:induction false} GivenByOne(ev: Event, conn: nat)
    ensures Given(CallFor(ev), conn) == if ev.Received? && ev.e.conn == conn then ev.data else []
  {
    if CallFor(ev) != [] {
      assert CallFor(ev)[..0] == [];
    }
  }

  /** What on_received is called with is what the theorems about runs speak of. */
  lemma {:induction false} GivenIsDelivered(log: seq<Event>, conn: nat)
    ensures Given(CallsOf(log), conn) == Delivered(log, conn)
  {
    if log == [] {
      assert [StartCall][..0] == [];
    } else {
      GivenIsDelivered(log[..|log| - 1], conn);
      GivenConcat(CallsOf(log[..|log| - 1]), CallFor(log[|log| - 1]), conn);
      GivenByOne(log[|log| - 1], conn);
    }
  }
}
