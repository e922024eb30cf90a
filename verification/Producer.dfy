/**
 Quekka_publish as it is written. The program copies bytes between fixed arrays, overwriting one
 header for every fragment; WrittenFrame says in closed form what each frame holds, and WrittenContent
 (WrittenContent.dfy) what a receiver can get out of the frames.
 */
module Producer {
  import opened Bytes
  import opened MessageFormat
  import opened Fragments
  import opened Layout

  /** sizeof applied to an int expression, which is what bounds the copies of topic and id. */
  const SIZEOF_INT := 4

  /** Where fragment i starts reading: its 16-bit counter times the chunk size. */
  function Offset(i: nat): nat {
    Low16(i) * 3943
  }

  /** The flag handed to message_assemble for fragment i; the test is >= where > is meant. */
  function PassedFlag(len: nat, i: nat): Byte {
    if len - 3943 * i >= PAYLOAD_MAX then FLAG_MORE else FLAG_LAST
  }

  function PassedFlags(len: nat, n: nat): (flags: seq<Byte>)
    ensures |flags| == n && forall i :: 0 <= i < n ==> flags[i] == PassedFlag(len, i)
  {
    if n == 0 then [] else PassedFlags(len, n - 1) + [PassedFlag(len, n - 1)]
  }

  /** The header as header_assemble leaves it: four bytes of topic and id, the rest zero. */
  function AssembledHeader(topic: seq<Byte>, id: seq<Byte>): (h: Header)
    requires StrLen(topic) < UINT16
    ensures WellFormed(h)
  {
    Header(StrNCopy(topic, SIZEOF_INT) + Zeros(TOPIC_MAX - SIZEOF_INT),
           StrNCopy(id, SIZEOF_INT) + Zeros(MSG_ID_MAX - SIZEOF_INT), StrLen(topic), 0, 0, 0)
  }

  /** What fragment i reads from: the payload pointer moved forward. */
  function Rest(payload: seq<Byte>, i: nat): seq<Byte> {
    payload[Min(Offset(i), |payload|)..]
  }

  /** The header that reaches the frame: its last byte, the flags, is not copied and stays 0. */
  function WrittenHeader(topic: seq<Byte>, id: seq<Byte>, payload: seq<Byte>, i: nat): (h: Header)
    requires StrLen(topic) < UINT16
    ensures WellFormed(h)
  {
    AssembledHeader(topic, id).(payloadLen := Low16(StrLen(Rest(payload, i))), seqNo := Low16(i))
  }

  /** One frame on the wire: the copied header and 3942 payload bytes, NUL-padded, closed by a NUL. */
  function WrittenFrame(topic: seq<Byte>, id: seq<Byte>, payload: seq<Byte>, i: nat): (frame: Frame)
    requires StrLen(topic) < UINT16
    ensures WellFormedFrame(frame)
  {
    Frame(WrittenHeader(topic, id, payload, i), StrNCopy(Rest(payload, i), PAYLOAD_MAX - 1) + [0])
  }

  /** A fragment starts inside the payload; its string is what is left from there. */
  lemma {:induction false} FragmentStarts(payload: seq<Byte>, i: nat)
    requires i < FragmentCount(StrLen(payload))
    ensures Offset(i) <= 3943 * i < StrLen(payload)
    ensures Rest(payload, i) == payload[Offset(i)..] && StrLen(Rest(payload, i)) == StrLen(payload) - Offset(i)
  {
    StrLenOfSuffix(payload, Offset(i));
  }

  /** h has the topic and id of this publish, whatever the last fragment left in the other fields. */
  predicate HeaderOfPublish(h: Header, topic: seq<Byte>, id: seq<Byte>)
    requires StrLen(topic) < UINT16
  {
    WellFormed(h) && AssembledHeader(topic, id) == h.(payloadLen := 0, seqNo := 0, flags := 0)
  }

  /** The header fields are where a receiver looks for them, with the bytes it is to find there. */
  lemma {:induction false} AssembledBytes(topic: seq<Byte>, id: seq<Byte>, h: Header)
    requires StrLen(topic) < UINT16 && HeaderOfPublish(h, topic, id)
    ensures NamesTopic(EncodeHeader(h), topic, id)
  {
    var b := EncodeHeader(h);
    HeaderLayout(h);
    CopyHolds(topic, SIZEOF_INT, TOPIC_MAX);
    CopyHolds(id, SIZEOF_INT, MSG_ID_MAX);
    assert b[0..128] == h.topic;
    Moved(b, 0, 128, topic, 4, h.topic);
    Moved(b, 128, 18, id, 4, h.messageId);
  }

  lemma NamesTopicInFront(b: seq<Byte>, longer: seq<Byte>, topic: seq<Byte>, id: seq<Byte>)
    requires |b| == 153 <= |longer| && longer[..153] == b && NamesTopic(b, topic, id)
    ensures NamesTopic(longer, topic, id)
  {
    assert forall k :: 0 <= k < 153 ==> longer[k] == b[k];
  }

  /** Every byte of frame number i on the wire. */
  lemma {:induction false} WrittenBytes(topic: seq<Byte>, id: seq<Byte>, payload: seq<Byte>, i: nat)
    requires StrLen(topic) < UINT16 && i < FragmentCount(StrLen(payload))
    ensures 3943 * (i % 65536) <= StrLen(payload)
    ensures IsFragment(Wire(WrittenFrame(topic, id, payload, i)), topic, id, payload, i)
  {
    var frame := WrittenFrame(topic, id, payload, i);
    var b, rest := Wire(frame), Rest(payload, i);
    FragmentStarts(payload, i);
    WireLayout(frame);
    AssembledBytes(topic, id, frame.header);
    NamesTopicInFront(EncodeHeader(frame.header), b, topic, id);
    HeaderLayout(frame.header);
    CopyHolds(rest, PAYLOAD_MAX - 1, PAYLOAD_MAX);
    assert Zeros(1) == [0];
    assert b[153..4096] == frame.payload;
    Moved(b, 153, 3943, rest, 3942, frame.payload);
    assert forall k :: 0 <= k < 153 ==> b[k] == EncodeHeader(frame.header)[k];
  }

  /** The first n frames of a publish. */
  ghost function WrittenFrames(topic: seq<Byte>, id: seq<Byte>, payload: seq<Byte>, n: nat): (frames: seq<Frame>)
    requires StrLen(topic) < UINT16
    ensures |frames| == n && Frames(frames)
    ensures forall i :: 0 <= i < n ==> frames[i] == WrittenFrame(topic, id, payload, i)
  {
    seq(n, i requires 0 <= i < n => WrittenFrame(topic, id, payload, i))
  }

  lemma NextAtFragment(len: nat, i: nat, remaining: nat, seqNo: nat)
    requires AtFragment(len, i, remaining, seqNo) && remaining > 0
    ensures i < FragmentCount(len)
    ensures AtFragment(len, i + 1, remaining - Min(PAYLOAD_MAX, remaining), Low16(seqNo + 1))
    ensures PassedFlag(len, i) == if remaining >= PAYLOAD_MAX then FLAG_MORE else FLAG_LAST
  {
    AfterFragment(len, i, remaining, seqNo);
  }

  lemma {:induction false} OneMoreFrame(topic: seq<Byte>, id: seq<Byte>, payload: seq<Byte>, i: nat,
                     before: seq<seq<Byte>>, block: seq<Byte>)
    requires StrLen(topic) < UINT16 && block == Wire(WrittenFrame(topic, id, payload, i))
    ensures before + WireAll(WrittenFrames(topic, id, payload, i)) + [block]
         == before + WireAll(WrittenFrames(topic, id, payload, i + 1))
  {
    var frames, longer := WrittenFrames(topic, id, payload, i), WrittenFrames(topic, id, payload, i + 1);
    WireOneMore(frames, WrittenFrame(topic, id, payload, i), longer);
  }

  lemma WireOneMore(frames: seq<Frame>, next: Frame, longer: seq<Frame>)
    requires Frames(frames) && WellFormedFrame(next) && Frames(longer)
    requires |longer| == |frames| + 1 && longer[|frames|] == next
    requires forall i :: 0 <= i < |frames| ==> longer[i] == frames[i]
    ensures WireAll(longer) == WireAll(frames) + [Wire(next)]
  {
  }

  lemma {:induction false} EachBlockIsAFragment(topic: seq<Byte>, id: seq<Byte>, payload: seq<Byte>)
    requires StrLen(topic) < UINT16
    ensures var n := FragmentCount(StrLen(payload));
            var blocks := WireAll(WrittenFrames(topic, id, payload, n));
            |blocks| == n && forall i :: 0 <= i < n ==>
              && |blocks[i]| == 4096 && 3943 * (i % 65536) <= StrLen(payload)
              && IsFragment(blocks[i], topic, id, payload, i)
  {
    forall i | 0 <= i < FragmentCount(StrLen(payload))
      ensures 3943 * (i % 65536) <= StrLen(payload)
      ensures IsFragment(Wire(WrittenFrame(topic, id, payload, i)), topic, id, payload, i)
    {
      WrittenBytes(topic, id, payload, i);
    }
  }

  // ----- byte copies -----

  /** strncpy into dst at position at: n bytes are written, NULs after the end of src. */
  method StrNCpy(dst: array<Byte>, at: nat, src: seq<Byte>, n: nat)
    requires at + n <= dst.Length
    modifies dst
    ensures dst[..] == old(dst[..at]) + StrNCopy(src, n) + old(dst[at + n..])
  {
    var copy := StrNCopy(src, n);
    forall i | at <= i < at + n {
      dst[i] := copy[i - at];
    }
  }

  method Put(dst: array<Byte>, at: nat, bytes: seq<Byte>)
    requires at + |bytes| <= dst.Length
    modifies dst
    ensures dst[..] == old(dst[..at]) + bytes + old(dst[at + |bytes|..])
  {
    forall i | at <= i < at + |bytes| {
      dst[i] := bytes[i - at];
    }
  }

  // ----- header_assemble and message_assemble -----

  lemma HeaderPieces(h: Header, b: seq<Byte>)
    requires WellFormed(h) && |b| == HEADER_SIZE
    requires b[..128] == h.topic && b[128..146] == h.messageId && b[146..148] == U16(h.topicLen)
    requires b[148..150] == U16(h.payloadLen) && b[150..152] == U16(h.seqNo) && b[152] == h.flags
    ensures b == EncodeHeader(h)
  {
    assert b == b[..128] + b[128..146] + b[146..148] + b[148..150] + b[150..152] + [b[152]];
  }

  method HeaderAssemble(header: array<Byte>, topic: seq<Byte>, id: seq<Byte>)
    requires header[..] == Zeros(HEADER_SIZE) && StrLen(topic) < UINT16
    modifies header
    ensures header[..] == EncodeHeader(AssembledHeader(topic, id))
    ensures NamesTopic(header[..], topic, id) && header[148..] == [0, 0, 0, 0, 0]
  {
    ghost var h := AssembledHeader(topic, id);
    StrNCpy(header, 0, topic, SIZEOF_INT);
    header[TOPIC_MAX - 1] := 0;
    ghost var first := header[..];
    PadSlice(StrNCopy(topic, SIZEOF_INT), 149, 128);
    assert first == StrNCopy(topic, SIZEOF_INT) + Zeros(149);
    assert first[132..] == Zeros(21);
    StrNCpy(header, TOPIC_MAX, id, SIZEOF_INT);
    ghost var second := first[..128] + (StrNCopy(id, SIZEOF_INT) + Zeros(21));
    assert header[..] == second;
    header[TOPIC_MAX + MSG_ID_MAX - 1] := 0;
    assert header[..] == second;
    PadSlice(StrNCopy(id, SIZEOF_INT), 21, 18);
    assert second[128..] == StrNCopy(id, SIZEOF_INT) + Zeros(21);
    assert second[..128] == first[..128] && second[128..146] == second[128..][..18];
    assert second[146..] == second[128..][18..];
    FinishHeader(header, StrLen(topic), h);
    AssembledBytes(topic, id, h);
    BlankTail(h);
  }

  lemma BlankTail(h: Header)
    requires WellFormed(h) && h.payloadLen == h.seqNo == 0 && h.flags == 0
    ensures EncodeHeader(h)[148..] == [0, 0, 0, 0, 0]
  {
    EncodedFields(h);
    var b := EncodeHeader(h);
    assert b[148..] == b[148..150] + b[150..152] + [b[152]];
  }

  lemma PadSlice(c: seq<Byte>, n: nat, k: nat)
    requires |c| <= k <= |c| + n
    ensures (c + Zeros(n))[..k] == c + Zeros(k - |c|) && (c + Zeros(n))[k..] == Zeros(n - (k - |c|))
  {
  }

  /** The topic length, after topic and id are in place. */
  method FinishHeader(header: array<Byte>, topicLen: nat, ghost h: Header)
    requires WellFormed(h) && h.topicLen == topicLen && h.payloadLen == h.seqNo == 0 && h.flags == 0
    requires header.Length == HEADER_SIZE
    requires header[..128] == h.topic && header[128..146] == h.messageId && header[146..] == Zeros(7)
    modifies header
    ensures header[..] == EncodeHeader(h)
  {
    ghost var before := header[..];
    Put(header, 146, U16(topicLen));
    ghost var b := header[..];
    assert b[..146] == before[..146];
    assert b[..128] == before[..146][..128] && b[128..146] == before[..146][128..146];
    assert b[148..] == before[148..] == before[146..][2..] == Zeros(5);
    assert b[148..150] == b[148..][..2] == U16(0) && b[150..152] == b[148..][2..4] == U16(0);
    HeaderPieces(h, b);
  }

  /** Overwrites payload_len, seq and flags of the shared header. */
  method SetFragmentFields(header: array<Byte>, payloadLen: nat, seqNo: nat, flag: Byte, ghost h: Header)
    requires WellFormed(h) && payloadLen < UINT16 && seqNo < UINT16 && header[..] == EncodeHeader(h)
    modifies header
    ensures header[..] == EncodeHeader(h.(payloadLen := payloadLen, seqNo := seqNo, flags := flag))
  {
    EncodedFields(h);
    ghost var was := header[..];
    Put(header, 148, U16(payloadLen));
    ghost var first := header[..];
    Put(header, 150, U16(seqNo));
    ghost var second := header[..];
    header[152] := flag;
    ghost var b := header[..];
    assert b[..148] == second[..148] == first[..148] == was[..148];
    assert b[..128] == was[..148][..128] && b[128..146] == was[..148][128..146] && b[146..148] == was[..148][146..148];
    assert b[148..150] == second[148..150] == first[148..150];
    assert b[150..152] == second[150..152];
    HeaderPieces(h.(payloadLen := payloadLen, seqNo := seqNo, flags := flag), b);
  }

  method MessageAssemble(header: array<Byte>, message: array<Byte>, payload: seq<Byte>, seqNo: nat, flag: Byte,
                         ghost h: Header)
    requires WellFormed(h) && seqNo < UINT16
    requires header[..] == EncodeHeader(h) && message[..] == Zeros(MSG_SIZE) && header != message
    modifies header, message
    ensures var sent := h.(payloadLen := Low16(StrLen(payload)), seqNo := seqNo);
            && header[..] == EncodeHeader(sent.(flags := flag))
            && message[..] == Wire(Frame(sent.(flags := 0), StrNCopy(payload, PAYLOAD_MAX - 1) + [0]))
  {
    SetFragmentFields(header, Low16(StrLen(payload)), seqNo, flag, h);
    ghost var sent := h.(payloadLen := Low16(StrLen(payload)), seqNo := seqNo, flags := flag);
    Put(message, 0, header[..HEADER_SIZE - 1]);
    ghost var first := message[..];
    FlagsByteDropped(sent);
    assert first == EncodeHeader(sent)[..HEADER_SIZE - 1] + Zeros(MSG_SIZE - HEADER_SIZE + 1);
    assert first[..HEADER_SIZE] == EncodeHeader(sent.(flags := 0));
    StrNCpy(message, HEADER_SIZE, payload, PAYLOAD_MAX - 1);
    message[MSG_SIZE - 1] := 0;
    assert message[..] == first[..HEADER_SIZE] + (StrNCopy(payload, PAYLOAD_MAX - 1) + [0]);
  }

  /** Copying one byte less than the header leaves the flags byte as it was. */
  lemma FlagsByteDropped(h: Header)
    requires WellFormed(h)
    ensures EncodeHeader(h)[..HEADER_SIZE - 1] + [0] == EncodeHeader(h.(flags := 0))
  {
  }

  // ----- Quekka_publish -----

  /** The body of the fragmentation loop up to the send: overwrites the shared header, fills a frame. */
  method NextFragment(header: array<Byte>, topic: seq<Byte>, id: seq<Byte>, payload: seq<Byte>,
                      seqNo: nat, flag: Byte, ghost i: nat, ghost h: Header)
    returns (block: seq<Byte>, ghost h': Header)
    requires StrLen(topic) < UINT16 && HeaderOfPublish(h, topic, id) && header[..] == EncodeHeader(h)
    requires i < FragmentCount(StrLen(payload)) && seqNo == Low16(i)
    modifies header
    ensures HeaderOfPublish(h', topic, id) && header[..] == EncodeHeader(h')
    ensures block == Wire(WrittenFrame(topic, id, payload, i))
    ensures 3943 * (i % 65536) <= StrLen(payload) && IsFragment(block, topic, id, payload, i)
  {
    var message := new Byte[MSG_SIZE](_ => 0);
    assert message[..] == Zeros(MSG_SIZE);
    FragmentStarts(payload, i);
    MessageAssemble(header, message, payload[seqNo * 3943..], seqNo, flag, h);
    h' := h.(payloadLen := Low16(StrLen(Rest(payload, i))), seqNo := seqNo, flags := flag);
    assert h'.(flags := 0) == WrittenHeader(topic, id, payload, i);
    WrittenBytes(topic, id, payload, i);
    return message[..], h';
  }

  /** The producer: what it has sent on its socket, one 4096-byte block per send. */
  class QuekkaProducer {
    var wire: seq<seq<Byte>>

    constructor ()
      ensures wire == []
    {
      wire := [];
    }

    /** passed: the flags handed to message_assemble, fragment by fragment. */
    method Publish(topic: seq<Byte>, payload: seq<Byte>, payloadSize: nat, id: seq<Byte>)
      returns (r: int, ghost passed: seq<Byte>)
      modifies this
      ensures r == -1 <==> StrLen(topic) == 0 || StrLen(topic) >= 65535 || StrLen(payload) != payloadSize
      ensures r == -1 ==> wire == old(wire)
      ensures r != -1 ==>
                && r == 0
                && wire == old(wire) + WireAll(WrittenFrames(topic, id, payload, FragmentCount(payloadSize)))
                && passed == PassedFlags(payloadSize, FragmentCount(payloadSize))
      ensures r == 0 ==> |wire| == |old(wire)| + (payloadSize + 3942) / 3943 && old(wire) <= wire
      ensures r == 0 ==> forall i {:trigger wire[|old(wire)| + i]} :: 0 <= i < |wire| - |old(wire)| ==>
                && |wire[|old(wire)| + i]| == 4096 && 3943 * (i % 65536) <= StrLen(payload)
                && IsFragment(wire[|old(wire)| + i], topic, id, payload, i)
    {
      passed := [];
      var topicLength := StrLen(topic);
      var payloadLength := StrLen(payload);
      if topicLength == 0 || topicLength >= UINT16 - 1 {
        return -1, [];
      }
      if payloadLength != payloadSize {
        return -1, [];
      }
      passed := SendFragments(topic, payload, payloadLength, id);
      EachBlockIsAFragment(topic, id, payload);
      return 0, passed;
    }

    /** The body of the fragmentation loop. */
    method SendNext(header: array<Byte>, topic: seq<Byte>, id: seq<Byte>, payload: seq<Byte>,
                    remaining: nat, seqNo: nat, ghost i: nat, ghost h: Header)
      returns (remaining': nat, seqNo': nat, flag: Byte, ghost h': Header)
      requires StrLen(topic) < UINT16 && HeaderOfPublish(h, topic, id) && header[..] == EncodeHeader(h)
      requires AtFragment(StrLen(payload), i, remaining, seqNo) && remaining > 0
      modifies this, header
      ensures HeaderOfPublish(h', topic, id) && header[..] == EncodeHeader(h')
      ensures i < FragmentCount(StrLen(payload))
      ensures wire == old(wire) + [Wire(WrittenFrame(topic, id, payload, i))]
      ensures AtFragment(StrLen(payload), i + 1, remaining', seqNo') && remaining' < remaining
      ensures flag == PassedFlag(StrLen(payload), i)
    {
      var chunkSize := if remaining > PAYLOAD_MAX then PAYLOAD_MAX else remaining;
      flag := if remaining >= PAYLOAD_MAX then FLAG_MORE else FLAG_LAST;
      NextAtFragment(StrLen(payload), i, remaining, seqNo);
      var block;
      block, h' := NextFragment(header, topic, id, payload, seqNo, flag, i, h);
      wire := wire + [block];
      remaining' := remaining - chunkSize;
      seqNo' := Low16(seqNo + 1);
    }

    /** The fragmentation loop: one shared header, a fresh message and a send for every chunk. */
    method SendFragments(topic: seq<Byte>, payload: seq<Byte>, payloadLength: nat, id: seq<Byte>)
      returns (ghost passed: seq<Byte>)
      requires StrLen(topic) < UINT16 && payloadLength == StrLen(payload)
      modifies this
      ensures wire == old(wire) + WireAll(WrittenFrames(topic, id, payload, FragmentCount(payloadLength)))
      ensures passed == PassedFlags(payloadLength, FragmentCount(payloadLength))
    {
      passed := [];
      var remaining: nat := payloadLength;
      var seqNo: nat := 0;
      var header := new Byte[HEADER_SIZE](_ => 0);
      assert header[..] == Zeros(HEADER_SIZE);
      HeaderAssemble(header, topic, id);
      ghost var h := AssembledHeader(topic, id);
      ghost var i := 0;
      while remaining > 0
        invariant AtFragment(payloadLength, i, remaining, seqNo)
        invariant HeaderOfPublish(h, topic, id) && header[..] == EncodeHeader(h)
        invariant wire == old(wire) + WireAll(WrittenFrames(topic, id, payload, i))
        invariant passed == PassedFlags(payloadLength, i)
        decreases remaining
      {
        var flag;
        remaining, seqNo, flag, h := SendNext(header, topic, id, payload, remaining, seqNo, i, h);
        OneMoreFrame(topic, id, payload, i, old(wire), wire[|wire| - 1]);
        passed := passed + [flag];
        i := i + 1;
      }
    }
  }
}
