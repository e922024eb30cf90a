/**
 From the producer's send to the server's on_received. The socket delivers a byte stream, in pieces
 that have nothing to do with frames; cutting what on_received was given every 4096 bytes yields the
 frames that were sent.
 */
module EndToEnd {
  import opened Bytes
  import opened MessageFormat
  import opened ClientList
  import opened EventLoop
  import opened History
  import opened Fragments
  import Producer
  import WrittenContent

  /** Whole frames at the front of a byte stream. */
  function Cut(bytes: seq<Byte>): (frames: seq<Frame>)
    ensures Frames(frames)
  {
    if |bytes| < MSG_SIZE then [] else [ReadFrame(bytes[..MSG_SIZE])] + Cut(bytes[MSG_SIZE..])
  }

  lemma {:induction false} FlattenLength(blocks: seq<seq<Byte>>)
    requires forall i :: 0 <= i < |blocks| ==> |blocks[i]| == MSG_SIZE
    ensures |Flatten(blocks)| == 4096 * |blocks|
  {
    if blocks != [] {
      FlattenLength(blocks[1..]);
    }
  }

  /** The byte stream of a sequence of sends. */
  ghost function Sent(frames: seq<Frame>): seq<Byte>
    requires Frames(frames)
  {
    Flatten(WireAll(frames))
  }

  lemma SentFirst(frames: seq<Frame>)
    requires Frames(frames) && frames != []
    ensures Sent(frames) == Wire(frames[0]) + Sent(frames[1..])
    ensures ReadFrame(Wire(frames[0])) == frames[0]
  {
    assert WireAll(frames)[1..] == WireAll(frames[1..]);
    ReadOfWire(frames[0]);
  }

  /** However much of a stream of frames has come through, cutting it gives the frames that are complete. */
  lemma {:induction false} CutOfPrefix(frames: seq<Frame>, got: seq<Byte>)
    requires Frames(frames) && got <= Sent(frames)
    ensures |got| / 4096 <= |frames| && Cut(got) == frames[..|got| / 4096]
  {
    FlattenLength(WireAll(frames));
    if |got| >= MSG_SIZE {
      var rest := got[MSG_SIZE..];
      SentFirst(frames);
      assert got[..MSG_SIZE] == Sent(frames)[..MSG_SIZE] == Wire(frames[0]);
      assert rest <= Sent(frames)[MSG_SIZE..] == Sent(frames[1..]);
      CutOfPrefix(frames[1..], rest);
      assert |got| / 4096 == 1 + |rest| / 4096;
      assert frames[..|got| / 4096] == [frames[0]] + frames[1..][..|rest| / 4096];
    }
  }

  /**
   At every point of every run: if a peer sends whole frames, the data handed to on_received so far
   cuts into the first so many of them, whatever the segmentation.
   */
  lemma {:induction false} ReceivedDataCutsIntoFrames(s0: State, acts: seq<Action>, s: State, conn: nat,
                                                      frames: seq<Frame>)
    requires Reaches(s0, acts, s) && conn < |s.k.conns|
    requires Frames(frames) && s.k.conns[conn].sent <= Sent(frames)
    ensures |Delivered(s.log, conn)| / 4096 <= |frames|
    ensures Cut(Delivered(s.log, conn)) == frames[..|Delivered(s.log, conn)| / 4096]
  {
    BytesAreConserved(s0, acts, s, conn);
    assert Delivered(s.log, conn) <= s.k.conns[conn].sent;
    CutOfPrefix(frames, Delivered(s.log, conn));
  }

  /** After a clean close, the server has been given exactly the frames that were sent, in order. */
  lemma CleanCloseDeliversEveryFrame(s0: State, acts: seq<Action>, s: State, e: Entry, frames: seq<Frame>)
    requires Reaches(s0, acts, s) && e.conn < |s.k.conns| && Disconnected(e, ByEof) in s.log
    requires Frames(frames) && s.k.conns[e.conn].sent == Sent(frames)
    ensures Cut(Delivered(s.log, e.conn)) == frames
  {
    BytesAreConserved(s0, acts, s, e.conn);
    FlattenLength(WireAll(frames));
    CutOfPrefix(frames, Delivered(s.log, e.conn));
    assert frames[..|frames|] == frames;
  }

  /** Publishes made as meant arrive as exactly their payloads. */
  lemma {:induction false} MeantPublishesArrive(s0: State, acts: seq<Action>, s: State, e: Entry, ps: seq<Publication>)
    requires Reaches(s0, acts, s) && e.conn < |s.k.conns| && Disconnected(e, ByEof) in s.log
    requires AllPublishable(ps) && s.k.conns[e.conn].sent == Sent(StreamOf(ps))
    ensures PayloadsOf(Cut(Delivered(s.log, e.conn)), []) == Payloads(ps)
  {
    CleanCloseDeliversEveryFrame(s0, acts, s, e, StreamOf(ps));
    StreamSplitsIntoPayloads(ps);
  }

  /** A publish as written arrives as its payload exactly when the payload has at most 3942 bytes. */
  lemma {:induction false} WrittenPublishArrivesIffShort(s0: State, acts: seq<Action>, s: State, e: Entry,
                                      topic: seq<Byte>, id: seq<Byte>, p: seq<Byte>)
    requires Reaches(s0, acts, s) && e.conn < |s.k.conns| && Disconnected(e, ByEof) in s.log
    requires StrLen(topic) < UINT16 && NulFree(p)
    requires s.k.conns[e.conn].sent == Sent(Producer.WrittenFrames(topic, id, p, FragmentCount(|p|)))
    ensures WrittenContent.Joined(Cut(Delivered(s.log, e.conn))) == p <==> |p| <= PAYLOAD_MAX - 1
  {
    CleanCloseDeliversEveryFrame(s0, acts, s, e, Producer.WrittenFrames(topic, id, p, FragmentCount(|p|)));
    WrittenContent.PayloadSurvivesIffShort(topic, id, p);
  }
}
