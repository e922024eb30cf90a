/**
 Fragmentation as it is meant: a payload is cut into chunks of 3943 bytes, each in a frame of 4096
 bytes that carries its position, its length and whether it is the last one.
 */
module Fragments {
  import opened Bytes
  import opened MessageFormat
  import opened Layout

  /** The last length for which a 16-bit fragment counter does not wrap. */
  const PLAN_LIMIT := 258408448

  /** One fragment for every 3943 bytes, and one for what is left. */
  function FragmentCount(len: nat): (n: nat)
    ensures len <= 3943 * n
    ensures n > 0 ==> 3943 * n - 3943 < len
    ensures n == 0 <==> len == 0
  {
    (len + 3942) / 3943
  }

  function ChunkLen(len: nat, i: nat): (n: nat)
    requires i < FragmentCount(len)
    ensures 1 <= n <= PAYLOAD_MAX && 3943 * i + n <= len
    ensures i + 1 == FragmentCount(len) <==> 3943 * i + n == len
    ensures i + 1 < FragmentCount(len) ==> n == PAYLOAD_MAX
  {
    Min(PAYLOAD_MAX, len - 3943 * i)
  }

  lemma SplitAt<T>(s: seq<T>, a: nat, b: nat)
    requires a <= b <= |s|
    ensures s[..a] + s[a..b] == s[..b] && s[a..] == s[a..b] + s[b..]
  {
  }

  /** The payload bytes a receiver takes from a frame: payload_len of them, as far as there are any. */
  function Content(frame: Frame): seq<Byte>
    requires WellFormedFrame(frame)
  {
    frame.payload[..Min(frame.header.payloadLen, PAYLOAD_MAX)]
  }

  // ----- writing frames, as meant -----

  ghost predicate Publishable(topic: seq<Byte>, payload: seq<Byte>) {
    1 <= |topic| < UINT16 - 1 && 1 <= |payload| <= PLAN_LIMIT
  }

  /** The test the loop is meant to make: more than a full chunk is left. */
  function MeantFlag(remaining: nat): Byte {
    if remaining > PAYLOAD_MAX then FLAG_MORE else FLAG_LAST
  }

  function MeantHeader(topic: seq<Byte>, id: seq<Byte>, payload: seq<Byte>, i: nat): (h: Header)
    requires |topic| < UINT16 && i < FragmentCount(|payload|) && i < UINT16
    ensures WellFormed(h)
  {
    Header(StrNCopy(topic, TOPIC_MAX - 1) + [0], StrNCopy(id, MSG_ID_MAX - 1) + [0], |topic|,
           ChunkLen(|payload|, i), i, MeantFlag(|payload| - 3943 * i))
  }

  function MeantFrame(topic: seq<Byte>, id: seq<Byte>, payload: seq<Byte>, i: nat): (frame: Frame)
    requires |topic| < UINT16 && i < FragmentCount(|payload|) && i < UINT16
    ensures WellFormedFrame(frame)
  {
    var n := ChunkLen(|payload|, i);
    var at := 3943 * i;
    Frame(MeantHeader(topic, id, payload, i), payload[at..at + n] + Zeros(PAYLOAD_MAX - n))
  }

  ghost function MeantFrames(topic: seq<Byte>, id: seq<Byte>, payload: seq<Byte>): (frames: seq<Frame>)
    requires Publishable(topic, payload)
    ensures Frames(frames) && |frames| == FragmentCount(|payload|)
  {
    seq(FragmentCount(|payload|), i requires 0 <= i < FragmentCount(|payload|) => MeantFrame(topic, id, payload, i))
  }

  /** Reading a frame back: its chunk of the payload, and LAST exactly when that is the end of it. */
  lemma ReadMeantFrame(topic: seq<Byte>, id: seq<Byte>, payload: seq<Byte>, i: nat)
    requires |topic| < UINT16 && i < FragmentCount(|payload|) && i < UINT16
    ensures var at, frame := 3943 * i, MeantFrame(topic, id, payload, i);
            && Content(frame) == payload[at..at + ChunkLen(|payload|, i)]
            && (frame.header.flags == FLAG_LAST <==> i + 1 == FragmentCount(|payload|))
  {
  }

  /** What a receiver reads from the header of a frame as meant: topic and id in full, as far as the fields go. */
  lemma {:induction false} MeantHeaderReads(topic: seq<Byte>, id: seq<Byte>, payload: seq<Byte>, i: nat)
    requires |topic| < UINT16 && i < FragmentCount(|payload|) && i < UINT16
    ensures var frame := MeantFrame(topic, id, payload, i);
            && CString(frame.header.topic) == CString(topic)[..Min(127, StrLen(topic))]
            && CString(frame.header.messageId) == CString(id)[..Min(17, StrLen(id))]
            && frame.header.topicLen == |topic| && frame.header.seqNo == i
            && frame.header.payloadLen == |Content(frame)|
  {
    var h := MeantFrame(topic, id, payload, i).header;
    CopyHolds(topic, 127, 128);
    CopyHolds(id, 17, 18);
    assert Zeros(1) == [0];
    FieldReadsAs(h.topic, 0, 128, topic, 127);
    FieldReadsAs(h.messageId, 0, 18, id, 17);
    assert h.topic[0..128] == h.topic && h.messageId[0..18] == h.messageId;
  }

  /** As meant, frames of topics that fit the field tell them apart. */
  lemma MeantTopicsAreToldApart(t: seq<Byte>, u: seq<Byte>, id: seq<Byte>, payload: seq<Byte>, i: nat)
    requires NulFree(t) && NulFree(u) && |t| <= 127 && |u| <= 127
    requires i < FragmentCount(|payload|) && i < UINT16
    ensures MeantFrame(t, id, payload, i) == MeantFrame(u, id, payload, i) <==> t == u
  {
    MeantHeaderReads(t, id, payload, i);
    MeantHeaderReads(u, id, payload, i);
    StrLenOfNulFree(t);
    StrLenOfNulFree(u);
  }

  /** The loop variables of Quekka_publish in front of fragment i. */
  predicate AtFragment(len: nat, i: nat, remaining: nat, seqNo: nat) {
    && i <= FragmentCount(len) && seqNo == Low16(i)
    && remaining == if i < FragmentCount(len) then len - 3943 * i else 0
  }

  lemma AfterFragment(len: nat, i: nat, remaining: nat, seqNo: nat)
    requires AtFragment(len, i, remaining, seqNo) && remaining > 0
    ensures i < FragmentCount(len)
    ensures ChunkLen(len, i) == Min(PAYLOAD_MAX, remaining)
    ensures AtFragment(len, i + 1, remaining - Min(PAYLOAD_MAX, remaining), Low16(seqNo + 1))
  {
    Low16Increment(i);
  }

  /** The body of the loop of Quekka_publish, as it is meant. */
  method NextAsMeant(topic: seq<Byte>, id: seq<Byte>, payload: seq<Byte>, remaining: nat, seqNo: nat, ghost i: nat)
    returns (frame: Frame, remaining': nat, seqNo': nat)
    requires Publishable(topic, payload) && AtFragment(|payload|, i, remaining, seqNo) && remaining > 0
    ensures i < FragmentCount(|payload|) && frame == MeantFrame(topic, id, payload, i)
    ensures AtFragment(|payload|, i + 1, remaining', seqNo') && remaining' < remaining
  {
    AfterFragment(|payload|, i, remaining, seqNo);
    var chunk := if remaining > PAYLOAD_MAX then PAYLOAD_MAX else remaining;
    var flag := if remaining > PAYLOAD_MAX then FLAG_MORE else FLAG_LAST;
    var header := Header(StrNCopy(topic, TOPIC_MAX - 1) + [0], StrNCopy(id, MSG_ID_MAX - 1) + [0], |topic|,
                         chunk, seqNo, flag);
    var at := seqNo * 3943;
    frame := Frame(header, payload[at..at + chunk] + Zeros(PAYLOAD_MAX - chunk));
    remaining' := remaining - chunk;
    seqNo' := Low16(seqNo + 1);
  }

  /** The loop of Quekka_publish as it is meant, with what is left, the 16-bit counter and the chunk size. */
  method PublishAsMeant(topic: seq<Byte>, id: seq<Byte>, payload: seq<Byte>) returns (sent: seq<Frame>)
    requires Publishable(topic, payload)
    ensures sent == MeantFrames(topic, id, payload)
  {
    sent := [];
    var remaining: nat := |payload|;
    var seqNo: nat := 0;
    ghost var i := 0;
    ghost var meant := MeantFrames(topic, id, payload);
    while remaining > 0
      invariant AtFragment(|payload|, i, remaining, seqNo)
      invariant sent == meant[..i]
      decreases remaining
    {
      var frame;
      frame, remaining, seqNo := NextAsMeant(topic, id, payload, remaining, seqNo, i);
      assert meant[i] == frame && meant[..i + 1] == meant[..i] + [meant[i]];
      sent := sent + [frame];
      i := i + 1;
    }
    assert meant[..i] == meant;
  }

  // ----- reassembly from frames in any order -----

  /** Position of the first frame with this sequence number, or the number of frames. */
  function Lookup(frames: seq<Frame>, seqNo: nat): (k: nat)
    requires Frames(frames)
    ensures k <= |frames|
    ensures k < |frames| ==> frames[k].header.seqNo == seqNo
    ensures forall j :: 0 <= j < k ==> frames[j].header.seqNo != seqNo
  {
    if frames == [] then 0
    else if frames[0].header.seqNo == seqNo then 0
    else 1 + Lookup(frames[1..], seqNo)
  }

  /** Joins the contents of frames from, from + 1, ... up to the one marked LAST. */
  function Reassemble(frames: seq<Frame>, from: nat): Option<seq<Byte>>
    requires Frames(frames) && from <= UINT16
    decreases UINT16 - from
  {
    var k := Lookup(frames, from);
    if from == UINT16 || k == |frames| then None
    else if frames[k].header.flags == FLAG_LAST then Some(Content(frames[k]))
    else match Reassemble(frames, from + 1)
      case None => None
      case Some(rest) => Some(Content(frames[k]) + rest)
  }

  /** Some of the frames, in any order and any number of times each. */
  ghost predicate SomeFrames(a: seq<Frame>, b: seq<Frame>) {
    forall f :: f in a ==> f in b
  }

  /** Among frames of one publish, a search by sequence number finds the fragment exactly when it is there. */
  lemma {:induction false} LookupFindsTheFragment(topic: seq<Byte>, id: seq<Byte>, payload: seq<Byte>,
                                                  frames: seq<Frame>, i: nat)
    requires Publishable(topic, payload) && Frames(frames)
    requires SomeFrames(frames, MeantFrames(topic, id, payload))
    requires i < FragmentCount(|payload|)
    ensures Lookup(frames, i) < |frames| <==> MeantFrame(topic, id, payload, i) in frames
    ensures Lookup(frames, i) < |frames| ==> frames[Lookup(frames, i)] == MeantFrame(topic, id, payload, i)
  {
    var meant := MeantFrames(topic, id, payload);
    assert MeantFrame(topic, id, payload, i).header.seqNo == i;
    if Lookup(frames, i) < |frames| {
      var found := frames[Lookup(frames, i)];
      assert found in meant;
      var j :| 0 <= j < |meant| && meant[j] == found;
      assert MeantFrame(topic, id, payload, j).header.seqNo == j;
    }
  }

  /** A search by sequence number finds every chunk of the payload, and LAST on the final one only. */
  ghost predicate HoldsEveryChunk(frames: seq<Frame>, payload: seq<Byte>) {
    && Frames(frames) && FragmentCount(|payload|) <= UINT16
    && forall i: nat {:trigger Lookup(frames, i)} :: i < FragmentCount(|payload|) ==>
         && Lookup(frames, i) < |frames|
         && Content(frames[Lookup(frames, i)]) == payload[3943 * i..3943 * i + ChunkLen(|payload|, i)]
         && (frames[Lookup(frames, i)].header.flags == FLAG_LAST <==> i + 1 == FragmentCount(|payload|))
  }

  lemma AllFramesHoldEveryChunk(topic: seq<Byte>, id: seq<Byte>, payload: seq<Byte>, frames: seq<Frame>)
    requires Publishable(topic, payload) && Frames(frames)
    requires SomeFrames(frames, MeantFrames(topic, id, payload))
    requires SomeFrames(MeantFrames(topic, id, payload), frames)
    ensures HoldsEveryChunk(frames, payload)
  {
    var meant := MeantFrames(topic, id, payload);
    forall i: nat | i < FragmentCount(|payload|)
      ensures Lookup(frames, i) < |frames|
      ensures Content(frames[Lookup(frames, i)]) == payload[3943 * i..3943 * i + ChunkLen(|payload|, i)]
      ensures frames[Lookup(frames, i)].header.flags == FLAG_LAST <==> i + 1 == FragmentCount(|payload|)
    {
      assert meant[i] in meant;
      LookupFindsTheFragment(topic, id, payload, frames, i);
      ReadMeantFrame(topic, id, payload, i);
    }
  }

  lemma ReassembleStep(frames: seq<Frame>, i: nat, content: seq<Byte>, last: bool)
    requires Frames(frames) && i < UINT16 && Lookup(frames, i) < |frames|
    requires Content(frames[Lookup(frames, i)]) == content
    requires frames[Lookup(frames, i)].header.flags == FLAG_LAST <==> last
    ensures last ==> Reassemble(frames, i) == Some(content)
    ensures !last && Reassemble(frames, i + 1).Some? ==>
              Reassemble(frames, i) == Some(content + Reassemble(frames, i + 1).value)
  {
  }

  lemma {:induction false} ReassembleFrom(frames: seq<Frame>, payload: seq<Byte>, i: nat)
    requires HoldsEveryChunk(frames, payload) && i < FragmentCount(|payload|)
    ensures Reassemble(frames, i) == Some(payload[3943 * i..])
    decreases FragmentCount(|payload|) - i
  {
    var at, to := 3943 * i, 3943 * i + ChunkLen(|payload|, i);
    var last := i + 1 == FragmentCount(|payload|);
    SplitAt(payload, at, to);
    ReassembleStep(frames, i, payload[at..to], last);
    if last {
      assert payload[at..to] == payload[at..];
    } else {
      assert to == 3943 * (i + 1);
      ReassembleFrom(frames, payload, i + 1);
    }
  }

  /** A missing fragment stops reassembly. */
  lemma {:induction false} MissingFragment(topic: seq<Byte>, id: seq<Byte>, payload: seq<Byte>,
                                           frames: seq<Frame>, i: nat, missing: nat)
    requires Publishable(topic, payload) && Frames(frames)
    requires SomeFrames(frames, MeantFrames(topic, id, payload))
    requires i <= missing < FragmentCount(|payload|) && MeantFrame(topic, id, payload, missing) !in frames
    ensures Reassemble(frames, i) == None
    decreases missing - i
  {
    LookupFindsTheFragment(topic, id, payload, frames, i);
    ReadMeantFrame(topic, id, payload, i);
    if i < missing {
      MissingFragment(topic, id, payload, frames, i + 1, missing);
    }
  }

  /**
   Fragmentation as meant loses nothing, and nothing is taken for complete too early: from frames of one
   publish, in any order and with any repetitions, reassembly by sequence number gives back the payload
   when every frame is there, and nothing otherwise.
   */
  lemma {:induction false} FragmentationIsLossless(topic: seq<Byte>, id: seq<Byte>, payload: seq<Byte>,
                                                   frames: seq<Frame>)
    requires Publishable(topic, payload) && Frames(frames)
    requires SomeFrames(frames, MeantFrames(topic, id, payload))
    ensures Reassemble(frames, 0)
         == if SomeFrames(MeantFrames(topic, id, payload), frames) then Some(payload) else None
  {
    var meant := MeantFrames(topic, id, payload);
    if SomeFrames(meant, frames) {
      AllFramesHoldEveryChunk(topic, id, payload, frames);
      ReassembleFrom(frames, payload, 0);
    } else {
      var f :| f in meant && f !in frames;
      var i :| 0 <= i < |meant| && meant[i] == f;
      MissingFragment(topic, id, payload, frames, 0, i);
    }
  }

  // ----- several publishes on one connection -----

  datatype Publication = Publication(topic: seq<Byte>, id: seq<Byte>, payload: seq<Byte>)

  ghost predicate AllPublishable(ps: seq<Publication>) {
    forall i :: 0 <= i < |ps| ==> Publishable(ps[i].topic, ps[i].payload)
  }

  ghost function StreamOf(ps: seq<Publication>): (frames: seq<Frame>)
    requires AllPublishable(ps)
    ensures Frames(frames)
  {
    if ps == [] then []
    else MeantFrames(ps[0].topic, ps[0].id, ps[0].payload) + StreamOf(ps[1..])
  }

  /** Cuts a stream of frames into payloads at the frames marked LAST. */
  function PayloadsOf(frames: seq<Frame>, partial: seq<Byte>): seq<seq<Byte>>
    requires Frames(frames)
  {
    if frames == [] then []
    else
      var sofar := partial + Content(frames[0]);
      if frames[0].header.flags == FLAG_LAST then [sofar] + PayloadsOf(frames[1..], [])
      else PayloadsOf(frames[1..], sofar)
  }

  lemma {:induction false} TakeFrame(frame: Frame, rest: seq<Frame>, partial: seq<Byte>)
    requires WellFormedFrame(frame) && Frames(rest)
    ensures PayloadsOf([frame] + rest, partial)
         == if frame.header.flags == FLAG_LAST then [partial + Content(frame)] + PayloadsOf(rest, [])
            else PayloadsOf(rest, partial + Content(frame))
  {
    assert ([frame] + rest)[1..] == rest;
  }

  /** The contents of the frames are the successive chunks of h. */
  ghost predicate HoldChunksOf(frames: seq<Frame>, h: seq<Byte>) {
    && Frames(frames) && |frames| == FragmentCount(|h|)
    && forall i :: 0 <= i < |frames| ==> Content(frames[i]) == h[3943 * i..3943 * i + ChunkLen(|h|, i)]
  }

  /** Frames that hold the chunks of a payload in order, the final one and no other marked LAST. */
  ghost predicate Carry(frames: seq<Frame>, payload: seq<Byte>) {
    && HoldChunksOf(frames, payload)
    && (forall i :: 0 <= i < |frames| ==> (frames[i].header.flags == FLAG_LAST <==> i == |frames| - 1))
  }

  lemma MeantFramesCarry(topic: seq<Byte>, id: seq<Byte>, payload: seq<Byte>)
    requires Publishable(topic, payload)
    ensures Carry(MeantFrames(topic, id, payload), payload)
  {
    var frames := MeantFrames(topic, id, payload);
    forall i | 0 <= i < |frames|
      ensures Content(frames[i]) == payload[3943 * i..3943 * i + ChunkLen(|payload|, i)]
      ensures frames[i].header.flags == FLAG_LAST <==> i == |frames| - 1
    {
      ReadMeantFrame(topic, id, payload, i);
    }
  }

  lemma {:induction false} OnePublication(frames: seq<Frame>, payload: seq<Byte>, rest: seq<Frame>, i: nat)
    requires Carry(frames, payload) && Frames(rest) && i < |frames|
    ensures PayloadsOf(frames[i..] + rest, payload[..3943 * i]) == [payload] + PayloadsOf(rest, [])
    decreases |frames| - i
  {
    var at := 3943 * i;
    var to := at + ChunkLen(|payload|, i);
    var after := frames[i + 1..] + rest;
    assert frames[i..] + rest == [frames[i]] + after;
    TakeFrame(frames[i], after, payload[..at]);
    SplitAt(payload, at, to);
    if i + 1 < |frames| {
      assert to == 3943 * (i + 1);
      OnePublication(frames, payload, rest, i + 1);
    } else {
      assert payload[..to] == payload;
      assert after == rest;
    }
  }

  lemma {:induction false} NoLastNoPayload(frames: seq<Frame>, partial: seq<Byte>)
    requires Frames(frames) && forall i :: 0 <= i < |frames| ==> frames[i].header.flags != FLAG_LAST
    ensures PayloadsOf(frames, partial) == []
  {
    if frames != [] {
      NoLastNoPayload(frames[1..], partial + Content(frames[0]));
    }
  }

  /**
   LAST is on the final frame of a publish and on no other; so a receiver that cuts at LAST gets nothing
   from the frames before the final one, and exactly the payload from all of them.
   */
  lemma ExactlyTheFinalFrameIsLast(topic: seq<Byte>, id: seq<Byte>, payload: seq<Byte>)
    requires Publishable(topic, payload)
    ensures var frames := MeantFrames(topic, id, payload);
            && (set i | 0 <= i < |frames| && frames[i].header.flags == FLAG_LAST) == {|frames| - 1}
            && (forall n :: 0 <= n < |frames| ==> PayloadsOf(frames[..n], []) == [])
            && PayloadsOf(frames, []) == [payload]
  {
    var frames := MeantFrames(topic, id, payload);
    MeantFramesCarry(topic, id, payload);
    forall n | 0 <= n < |frames|
      ensures PayloadsOf(frames[..n], []) == []
    {
      NoLastNoPayload(frames[..n], []);
    }
    OnePublication(frames, payload, [], 0);
    assert frames[0..] + [] == frames && payload[..0] == [];
  }

  /** A concatenation of publishes splits back into exactly its payloads. */
  lemma {:induction false} StreamSplitsIntoPayloads(ps: seq<Publication>)
    requires AllPublishable(ps)
    ensures PayloadsOf(StreamOf(ps), []) == Payloads(ps)
  {
    if ps != [] {
      var p := ps[0];
      var frames := MeantFrames(p.topic, p.id, p.payload);
      StreamSplitsIntoPayloads(ps[1..]);
      MeantFramesCarry(p.topic, p.id, p.payload);
      OnePublication(frames, p.payload, StreamOf(ps[1..]), 0);
      assert frames[0..] == frames;
      assert p.payload[..0] == [];
    }
  }

  ghost function Payloads(ps: seq<Publication>): seq<seq<Byte>> {
    seq(|ps|, i requires 0 <= i < |ps| => ps[i].payload)
  }

  /** No two different lists of payloads share a stream. */
  lemma {:induction false} StreamsSplitUniquely(ps: seq<Publication>, qs: seq<Publication>)
    requires AllPublishable(ps) && AllPublishable(qs) && StreamOf(ps) == StreamOf(qs)
    ensures Payloads(ps) == Payloads(qs)
  {
    StreamSplitsIntoPayloads(ps);
    StreamSplitsIntoPayloads(qs);
  }
}
