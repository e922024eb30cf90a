/**
 What the frames of Quekka_publish, as written, carry: the fragment plan with its 16-bit counter, the
 bytes that survive, and exactly which payloads come through intact.
 */
module WrittenContent {
  import opened Bytes
  import opened MessageFormat
  import opened Fragments
  import opened Producer
  import opened Layout

  // ----- the fragment plan -----

  ghost predicate PlanCovers(len: nat, k: nat) {
    exists i :: 0 <= i < FragmentCount(len) && Offset(i) <= k < Offset(i) + ChunkLen(len, i)
  }

  /** Each fragment starts where the one before it ended. */
  ghost predicate PlanIsContiguous(len: nat) {
    && (len > 0 ==> Offset(0) == 0)
    && (forall i, j :: 0 <= i && j == i + 1 && j < FragmentCount(len) ==> Offset(j) == Offset(i) + ChunkLen(len, i))
  }

  /**
   The chunks partition the payload, in order, exactly when it has at most 258408448 bytes; beyond
   that no fragment reads the rest.
   */
  lemma PlanPartitionsIffCounterFits(len: nat)
    ensures PlanIsContiguous(len) <==> len <= PLAN_LIMIT
    ensures len <= PLAN_LIMIT <==> forall k :: 0 <= k < len ==> PlanCovers(len, k)
    ensures forall k :: k >= PLAN_LIMIT ==> !PlanCovers(len, k)
  {
    forall k: nat | k >= PLAN_LIMIT
      ensures !PlanCovers(len, k)
    {
      forall i | 0 <= i < FragmentCount(len)
        ensures Offset(i) + ChunkLen(len, i) <= PLAN_LIMIT
      {
        assert Low16(i) <= UINT16 - 1;
      }
    }
    if len <= PLAN_LIMIT {
      forall k | 0 <= k < len
        ensures PlanCovers(len, k)
      {
        var i := k / 3943;
        assert 0 <= i < FragmentCount(len) && i < UINT16 && Offset(i) == 3943 * i;
      }
    } else {
      var i, j := UINT16 - 1, UINT16;
      assert j < FragmentCount(len) && Offset(j) == 0 && ChunkLen(len, i) == PAYLOAD_MAX;
      assert !PlanIsContiguous(len);
      assert !PlanCovers(len, PLAN_LIMIT);
    }
  }

  /** LAST is handed to message_assemble, for the final fragment, exactly when the length is no multiple of 3943. */
  lemma LastIsPassedIffNotAMultiple(len: nat, i: nat)
    requires i < FragmentCount(len)
    ensures PassedFlag(len, i) == FLAG_LAST <==> i == FragmentCount(len) - 1 && len % 3943 != 0
    ensures PassedFlag(len, i) == MeantFlag(len - 3943 * i) <==> i < FragmentCount(len) - 1 || len % 3943 != 0
  {
    var q, r := len / 3943, len % 3943;
    assert len == 3943 * q + r;
    assert FragmentCount(len) == if r == 0 then q else q + 1;
  }

  // ----- reading a written frame -----

  /**
   Only four bytes of the topic are copied: two topics give the same frames exactly when they have the
   same length and agree on those bytes.
   */
  lemma {:induction false} TopicsAreToldApartByFourBytes(t: seq<Byte>, u: seq<Byte>, id: seq<Byte>,
                                                         payload: seq<Byte>, i: nat)
    requires StrLen(t) < UINT16 && StrLen(u) < UINT16
    ensures WrittenFrame(t, id, payload, i) == WrittenFrame(u, id, payload, i)
       <==> StrLen(t) == StrLen(u) && CString(t)[..Min(4, StrLen(t))] == CString(u)[..Min(4, StrLen(u))]
  {
    var a, b := WrittenHeader(t, id, payload, i), WrittenHeader(u, id, payload, i);
    assert CString(t)[..Min(4, StrLen(t))] == StrNCopy(t, SIZEOF_INT)[..Min(4, StrLen(t))];
    assert CString(u)[..Min(4, StrLen(u))] == StrNCopy(u, SIZEOF_INT)[..Min(4, StrLen(u))];
    assert a.topic[..SIZEOF_INT] == StrNCopy(t, SIZEOF_INT) && b.topic[..SIZEOF_INT] == StrNCopy(u, SIZEOF_INT);
  }

  /** No frame on the wire is ever marked LAST, whatever flag was passed. */
  lemma {:induction false} NoWrittenFrameIsLast(topic: seq<Byte>, id: seq<Byte>, payload: seq<Byte>, i: nat)
    requires StrLen(topic) < UINT16 && i < FragmentCount(StrLen(payload))
    ensures var frames := WrittenFrames(topic, id, payload, FragmentCount(StrLen(payload)));
            frames[i].header.flags == FLAG_MORE
  {
  }

  /** So a receiver that waits for LAST never completes a message. */
  lemma {:induction false} WrittenFramesNeverReassemble(topic: seq<Byte>, id: seq<Byte>, payload: seq<Byte>, from: nat)
    requires StrLen(topic) < UINT16 && from <= UINT16
    ensures Reassemble(WrittenFrames(topic, id, payload, FragmentCount(StrLen(payload))), from) == None
  {
    var frames := WrittenFrames(topic, id, payload, FragmentCount(StrLen(payload)));
    forall i | 0 <= i < |frames|
      ensures frames[i].header.flags == FLAG_MORE
    {
      NoWrittenFrameIsLast(topic, id, payload, i);
    }
    NoLastNoMessage(frames, from);
  }

  lemma {:induction false} NoLastNoMessage(frames: seq<Frame>, from: nat)
    requires Frames(frames) && from <= UINT16
    requires forall i :: 0 <= i < |frames| ==> frames[i].header.flags == FLAG_MORE
    ensures Reassemble(frames, from) == None
    decreases UINT16 - from
  {
    if from < UINT16 {
      NoLastNoMessage(frames, from + 1);
    }
  }

  /** Reading the header of a written frame: four bytes of topic and id, and the fragment's number modulo 65536. */
  lemma {:induction false} WrittenHeaderReads(topic: seq<Byte>, id: seq<Byte>, payload: seq<Byte>, i: nat)
    requires StrLen(topic) < UINT16 && i < FragmentCount(StrLen(payload))
    ensures var h := WrittenFrames(topic, id, payload, FragmentCount(StrLen(payload)))[i].header;
            && CString(h.topic) == CString(topic)[..Min(4, StrLen(topic))]
            && CString(h.messageId) == CString(id)[..Min(4, StrLen(id))]
            && h.topicLen == StrLen(topic) && h.seqNo == i % 65536
  {
    var h := WrittenFrame(topic, id, payload, i).header;
    AssembledBytes(topic, id, h);
    NameReads(h, topic, id);
  }

  /** A search by sequence number finds each fragment of the publish. */
  ghost predicate ToldApartByNumber(frames: seq<Frame>)
    requires Frames(frames)
  {
    forall i {:trigger Lookup(frames, i)} :: 0 <= i < |frames| ==> Lookup(frames, i) == i
  }

  /** The sequence numbers tell all fragments apart exactly when the payload has at most 258408448 bytes. */
  lemma {:induction false} NumbersTellApartIffCounterFits(topic: seq<Byte>, id: seq<Byte>, payload: seq<Byte>)
    requires StrLen(topic) < UINT16
    ensures ToldApartByNumber(WrittenFrames(topic, id, payload, FragmentCount(StrLen(payload))))
       <==> StrLen(payload) <= 258408448
  {
    var frames := WrittenFrames(topic, id, payload, FragmentCount(StrLen(payload)));
    if |frames| <= UINT16 {
      forall i | 0 <= i < |frames|
        ensures Lookup(frames, i) == i
      {
        assert frames[i].header.seqNo == i;
        assert forall j :: 0 <= j < i ==> frames[j].header.seqNo == j;
      }
    } else {
      assert forall j :: 0 <= j < |frames| ==> frames[j].header.seqNo < UINT16;
      assert Lookup(frames, UINT16) == |frames|;
    }
  }

  // ----- joining the contents -----

  /** Positions of the last byte of a full chunk. */
  predicate IsHole(k: nat) {
    k % 3943 == PAYLOAD_MAX - 1
  }

  lemma HoleInChunk(i: nat, k: nat)
    requires k < PAYLOAD_MAX
    ensures IsHole(3943 * i + k) <==> k == PAYLOAD_MAX - 1
  {
  }

  /** The payload with the last byte of every full chunk replaced by NUL. */
  function Holed(p: seq<Byte>): (r: seq<Byte>)
    ensures |r| == |p|
    ensures forall k {:trigger r[k]} :: 0 <= k < |p| ==> r[k] == if IsHole(k) then 0 else p[k]
  {
    seq(|p|, k requires 0 <= k < |p| => if IsHole(k) then 0 else p[k])
  }

  function Joined(frames: seq<Frame>): seq<Byte>
    requires Frames(frames)
  {
    if frames == [] then []
    else Joined(frames[..|frames| - 1]) + Content(frames[|frames| - 1])
  }

  /** What a fragment holds of the rest of the payload: all of it, or a chunk with its last byte lost. */
  lemma CopiedChunk(rest: seq<Byte>, n: nat)
    requires NulFree(rest) && n == Min(PAYLOAD_MAX, |rest|)
    ensures (StrNCopy(rest, PAYLOAD_MAX - 1) + [0])[..n]
         == if n == PAYLOAD_MAX then rest[..n - 1] + [0] else rest[..n]
  {
    StrLenOfNulFree(rest);
  }

  lemma HoledChunk(p: seq<Byte>, i: nat)
    requires i < FragmentCount(|p|)
    ensures var at, n := 3943 * i, ChunkLen(|p|, i);
            Holed(p)[at..at + n] == if n == PAYLOAD_MAX then p[at..][..n - 1] + [0] else p[at..][..n]
  {
    var at, n := 3943 * i, ChunkLen(|p|, i);
    var chunk := if n == PAYLOAD_MAX then p[at..][..n - 1] + [0] else p[at..][..n];
    forall k | 0 <= k < n
      ensures Holed(p)[at..at + n][k] == chunk[k]
    {
      HoleInChunk(i, k);
      assert Holed(p)[at..at + n][k] == Holed(p)[at + k];
    }
  }

  /** Up to 65535 bytes, neither 16-bit field wraps. */
  lemma NothingWraps(len: nat, i: nat)
    requires len < UINT16 && i < FragmentCount(len)
    ensures Offset(i) == 3943 * i && Low16(len - Offset(i)) == len - 3943 * i
    ensures ChunkLen(len, i) == Min(PAYLOAD_MAX, len - 3943 * i)
  {
  }

  /** One fragment of a payload of at most 65535 bytes. */
  lemma {:induction false} WrittenFragmentContent(topic: seq<Byte>, id: seq<Byte>, p: seq<Byte>, i: nat, at: nat,
                                                  n: nat)
    requires StrLen(topic) < UINT16 && NulFree(p) && |p| < UINT16 && i < FragmentCount(|p|)
    requires at == 3943 * i && n == ChunkLen(|p|, i)
    ensures StrLen(p) == |p| && Offset(i) == at && at + n <= |p|
    ensures WrittenFrame(topic, id, p, i).header.payloadLen == |p| - at
    ensures Content(WrittenFrame(topic, id, p, i)) == Holed(p)[at..at + n]
  {
    StrLenOfNulFree(p);
    NothingWraps(|p|, i);
    FragmentStarts(p, i);
    CopiedChunk(p[at..], n);
    HoledChunk(p, i);
  }

  /** How much of the payload the first n fragments cover. */
  function Covered(len: nat, n: nat): nat {
    Min(3943 * n, len)
  }

  lemma CoveredGrows(len: nat, n: nat)
    requires n < FragmentCount(len)
    ensures Covered(len, n) == 3943 * n && Covered(len, n + 1) == 3943 * n + ChunkLen(len, n)
  {
  }

  lemma EverythingCovered(len: nat)
    ensures Covered(len, FragmentCount(len)) == len
  {
  }

  /** Frames whose contents are the successive chunks of h join to a prefix of h. */
  lemma {:induction false} JoinOfChunks(frames: seq<Frame>, h: seq<Byte>)
    requires Frames(frames) && |frames| <= FragmentCount(|h|)
    requires forall i :: 0 <= i < |frames| ==> Content(frames[i]) == h[3943 * i..3943 * i + ChunkLen(|h|, i)]
    ensures Joined(frames) == h[..Covered(|h|, |frames|)]
  {
    if frames != [] {
      var i := |frames| - 1;
      JoinOfChunks(frames[..i], h);
      CoveredGrows(|h|, i);
      SplitAt(h, 3943 * i, 3943 * i + ChunkLen(|h|, i));
    }
  }

  lemma {:induction false} WrittenFramesHoldChunks(topic: seq<Byte>, id: seq<Byte>, p: seq<Byte>)
    requires StrLen(topic) < UINT16 && NulFree(p) && |p| < UINT16
    ensures HoldChunksOf(WrittenFrames(topic, id, p, FragmentCount(|p|)), Holed(p))
  {
    var frames, h := WrittenFrames(topic, id, p, FragmentCount(|p|)), Holed(p);
    forall i | 0 <= i < |frames|
      ensures HoldsChunk(frames[i], h, i)
    {
      WrittenFragmentContent(topic, id, p, i, 3943 * i, ChunkLen(|p|, i));
    }
    EachHoldsItsChunk(frames, h);
  }

  predicate HoldsChunk(frame: Frame, h: seq<Byte>, i: nat)
    requires WellFormedFrame(frame) && i < FragmentCount(|h|)
  {
    Content(frame) == h[3943 * i..3943 * i + ChunkLen(|h|, i)]
  }

  lemma EachHoldsItsChunk(frames: seq<Frame>, h: seq<Byte>)
    requires Frames(frames) && |frames| == FragmentCount(|h|)
    requires forall i :: 0 <= i < |frames| ==> HoldsChunk(frames[i], h, i)
    ensures HoldChunksOf(frames, h)
  {
  }

  lemma {:induction false} JoinOfAllChunks(frames: seq<Frame>, h: seq<Byte>)
    requires HoldChunksOf(frames, h)
    ensures Joined(frames) == h
  {
    JoinOfChunks(frames, h);
    EverythingCovered(|h|);
    assert h[..|h|] == h;
  }

  /**
   Exact content, for a payload of at most 65535 bytes: the joined contents are the payload with a NUL
   at every position congruent to 3942 modulo 3943.
   */
  lemma {:induction false} WrittenContentIsHoled(topic: seq<Byte>, id: seq<Byte>, p: seq<Byte>)
    requires StrLen(topic) < UINT16 && NulFree(p) && |p| < UINT16
    ensures StrLen(p) == |p|
    ensures Joined(WrittenFrames(topic, id, p, FragmentCount(|p|))) == Holed(p)
  {
    StrLenOfNulFree(p);
    WrittenFramesHoldChunks(topic, id, p);
    JoinOfAllChunks(WrittenFrames(topic, id, p, FragmentCount(|p|)), Holed(p));
  }

  // ----- beyond 65535 bytes -----

  /** What fragment i contributes, while the counter fits: never more than its chunk. */
  lemma {:induction false} ContributionIsBounded(topic: seq<Byte>, id: seq<Byte>, p: seq<Byte>, i: nat)
    requires StrLen(topic) < UINT16 && StrLen(p) <= PLAN_LIMIT && i < FragmentCount(StrLen(p))
    ensures |Content(WrittenFrame(topic, id, p, i))| == Min(PAYLOAD_MAX, Low16(StrLen(p) - 3943 * i))
    ensures |Content(WrittenFrame(topic, id, p, i))| <= ChunkLen(StrLen(p), i)
  {
    FragmentStarts(p, i);
    assert i < UINT16 && Offset(i) == 3943 * i;
  }

  /** No frame contributes more than its chunk. */
  ghost predicate WithinChunks(frames: seq<Frame>, len: nat) {
    && Frames(frames) && |frames| <= FragmentCount(len)
    && forall i :: 0 <= i < |frames| ==> |Content(frames[i])| <= ChunkLen(len, i)
  }

  /** Then a frame that contributes less than its chunk makes the join too short. */
  lemma {:induction false} JoinIsNoLonger(frames: seq<Frame>, len: nat, i: nat)
    requires WithinChunks(frames, len)
    ensures |Joined(frames)| <= Covered(len, |frames|)
    ensures i < |frames| && |Content(frames[i])| < ChunkLen(len, i) ==> |Joined(frames)| < Covered(len, |frames|)
  {
    if frames != [] {
      var shorter := frames[..|frames| - 1];
      assert WithinChunks(shorter, len);
      JoinIsNoLonger(shorter, len, i);
      CoveredGrows(len, |shorter|);
    }
  }

  lemma {:induction false} WrittenFramesWithinChunks(topic: seq<Byte>, id: seq<Byte>, p: seq<Byte>, n: nat)
    requires StrLen(topic) < UINT16 && StrLen(p) <= PLAN_LIMIT && n == FragmentCount(StrLen(p))
    ensures WithinChunks(WrittenFrames(topic, id, p, n), StrLen(p))
  {
    forall i | 0 <= i < n
      ensures |Content(WrittenFrame(topic, id, p, i))| <= ChunkLen(StrLen(p), i)
    {
      ContributionIsBounded(topic, id, p, i);
    }
  }

  lemma {:induction false} LongJoinIsTooShort(topic: seq<Byte>, id: seq<Byte>, p: seq<Byte>, n: nat)
    requires StrLen(topic) < UINT16 <= StrLen(p) <= PLAN_LIMIT && n == FragmentCount(StrLen(p))
    ensures |Joined(WrittenFrames(topic, id, p, n))| < StrLen(p)
  {
    var i := SomeFragmentClaimsTooLittle(StrLen(p));
    var frames := WrittenFrames(topic, id, p, n);
    ContributionIsBounded(topic, id, p, i);
    WrittenFramesWithinChunks(topic, id, p, n);
    assert frames[i] == WrittenFrame(topic, id, p, i);
    OneTooShort(frames, StrLen(p), i);
  }

  lemma {:induction false} OneTooShort(frames: seq<Frame>, len: nat, i: nat)
    requires WithinChunks(frames, len) && |frames| == FragmentCount(len)
    requires i < |frames| && |Content(frames[i])| < ChunkLen(len, i)
    ensures |Joined(frames)| < len
  {
    JoinIsNoLonger(frames, len, i);
    EverythingCovered(len);
  }

  /** From 65536 bytes on, some fragment has between 65536 and 69478 bytes left, and claims fewer than 3943. */
  lemma SomeFragmentClaimsTooLittle(len: nat) returns (i: nat)
    requires len >= UINT16
    ensures i < FragmentCount(len) && Low16(len - 3943 * i) < ChunkLen(len, i)
  {
    i := (len - UINT16) / 3943;
    assert 3943 * i <= len - UINT16 < 3943 * i + 3943;
    var left := len - 3943 * i;
    assert Low16(left) == Low16(left - UINT16) == left - UINT16;
  }

  // ----- beyond the range of the counter -----

  /** A frame contributes the bytes it claims, or a chunk that ends in a NUL. */
  predicate Contributes(frame: Frame, claim: nat)
    requires WellFormedFrame(frame)
  {
    && |Content(frame)| == Min(PAYLOAD_MAX, claim)
    && (claim >= PAYLOAD_MAX ==> Content(frame)[PAYLOAD_MAX - 1] == 0)
  }

  /** A fragment that starts before the counter wraps. */
  lemma {:induction false} EarlyContent(topic: seq<Byte>, id: seq<Byte>, p: seq<Byte>, i: nat, claim: nat)
    requires StrLen(topic) < UINT16 && StrLen(p) == |p| > PLAN_LIMIT && i < UINT16
    requires claim == Low16(|p| - 3943 * i)
    ensures Contributes(WrittenFrame(topic, id, p, i), claim)
  {
    StrLenOfSuffix(p, 3943 * i);
    assert Offset(i) == 3943 * i <= |p|;
  }

  /**
   The claims go down by a chunk per fragment, modulo 65536; so early on one of them is positive but
   short of a chunk. Up to there each is zero or at least a chunk, and the next one is at least a chunk.
   */
  lemma SomeClaimIsPartial(len: nat) returns (i: nat)
    requires len > PLAN_LIMIT
    ensures i <= 32 && 0 < Low16(len - 3943 * i) < PAYLOAD_MAX
    ensures Low16(len - 3943 * (i + 1)) >= PAYLOAD_MAX
    ensures forall j :: 0 <= j < i ==> Low16(len - 3943 * j) == 0 || Low16(len - 3943 * j) >= PAYLOAD_MAX
  {
    i := Low16(len) / 3943;
    ClaimsFall(len, 0, i);
    if Low16(len - 3943 * i) == 0 {
      ClaimAfter(len - 3943 * i, 3943);
      ClaimsFall(len, i + 1, 15);
      i := i + 16;
    }
    ClaimAfter(len - 3943 * i, 3943);
  }

  /** A claim of n chunks and more is followed by n whole chunks. */
  lemma {:induction false} ClaimsFall(len: nat, from: nat, n: nat)
    requires 3943 * (from + n) <= len && 3943 * n <= Low16(len - 3943 * from)
    ensures forall j :: from <= j < from + n ==> Low16(len - 3943 * j) >= PAYLOAD_MAX
    ensures Low16(len - 3943 * (from + n)) == Low16(len - 3943 * from) - 3943 * n
  {
    if n > 0 {
      ClaimsFall(len, from, n - 1);
      ClaimAfter(len - 3943 * (from + n - 1), 3943);
    }
  }

  /** Less of the payload left means a smaller claim, or one from the top again. */
  lemma ClaimAfter(left: nat, d: nat)
    requires d <= left && d <= Low16(left) + UINT16
    ensures Low16(left - d) == if d <= Low16(left) then Low16(left) - d else Low16(left) - d + UINT16
  {
  }

  /** Frames that each contribute nothing or a full chunk join to full chunks. */
  lemma {:induction false} JoinOfWholeChunks(frames: seq<Frame>) returns (m: nat)
    requires Frames(frames)
    requires forall i :: 0 <= i < |frames| ==> |Content(frames[i])| == 0 || |Content(frames[i])| == PAYLOAD_MAX
    ensures |Joined(frames)| == 3943 * m
  {
    if frames == [] {
      return 0;
    }
    m := JoinOfWholeChunks(frames[..|frames| - 1]);
    m := m + if Content(frames[|frames| - 1]) == [] then 0 else 1;
  }

  lemma {:induction false} JoinExtends(frames: seq<Frame>, n: nat)
    requires Frames(frames) && n <= |frames|
    ensures |Joined(frames[..n])| <= |Joined(frames)| && Joined(frames)[..|Joined(frames[..n])|] == Joined(frames[..n])
  {
    if n < |frames| {
      JoinExtends(frames[..|frames| - 1], n);
      assert frames[..|frames| - 1][..n] == frames[..n];
    } else {
      assert frames[..n] == frames;
    }
  }

  /** A partial chunk followed by a full one puts a NUL where no chunk of a joined payload ends. */
  lemma NulOffTheGrid(frames: seq<Frame>, claims: seq<nat>, i: nat) returns (k: nat)
    requires Frames(frames) && i + 1 < |frames| && |claims| == i + 2
    requires forall j :: 0 <= j < |claims| ==> Contributes(frames[j], claims[j])
    requires forall j :: 0 <= j < i ==> claims[j] == 0 || claims[j] >= PAYLOAD_MAX
    requires 0 < claims[i] < PAYLOAD_MAX <= claims[i + 1]
    ensures k < |Joined(frames)| && Joined(frames)[k] == 0 && !IsHole(k)
  {
    var m := JoinOfWholeChunks(frames[..i]);
    var r := |Content(frames[i])|;
    assert frames[..i + 1][..i] == frames[..i] && frames[..i + 2][..i + 1] == frames[..i + 1];
    assert |Joined(frames[..i + 1])| == 3943 * m + r;
    k := 3943 * m + r + PAYLOAD_MAX - 1;
    assert Joined(frames[..i + 2])[k] == 0;
    JoinExtends(frames, i + 2);
    assert Joined(frames)[..|Joined(frames[..i + 2])|][k] == 0;
    HoleInChunk(m + 1, r - 1);
    assert k == 3943 * (m + 1) + (r - 1);
  }

  lemma {:induction false} VeryLongIsNotHoled(topic: seq<Byte>, id: seq<Byte>, p: seq<Byte>)
    requires StrLen(topic) < UINT16 && NulFree(p) && |p| > PLAN_LIMIT
    ensures Joined(WrittenFrames(topic, id, p, FragmentCount(|p|))) != Holed(p)
  {
    var frames := WrittenFrames(topic, id, p, FragmentCount(|p|));
    var i := SomeClaimIsPartial(|p|);
    var claims := EarlyClaims(topic, id, p, i + 2);
    var k := NulOffTheGrid(frames, claims, i);
    NulMeansNotHoled(Joined(frames), p, k);
  }

  lemma EarlyClaims(topic: seq<Byte>, id: seq<Byte>, p: seq<Byte>, n: nat) returns (claims: seq<nat>)
    requires StrLen(topic) < UINT16 && NulFree(p) && |p| > PLAN_LIMIT && n < UINT16
    ensures |claims| == n && forall j :: 0 <= j < n ==> claims[j] == Low16(|p| - 3943 * j)
    ensures forall j :: 0 <= j < n ==> Contributes(WrittenFrame(topic, id, p, j), claims[j])
  {
    StrLenOfNulFree(p);
    claims := seq(n, j requires 0 <= j < n => Low16(|p| - 3943 * j));
    forall j | 0 <= j < n
      ensures Contributes(WrittenFrame(topic, id, p, j), claims[j])
    {
      EarlyContent(topic, id, p, j, claims[j]);
    }
  }

  lemma NulMeansNotHoled(joined: seq<Byte>, p: seq<Byte>, k: nat)
    requires NulFree(p) && k < |joined| && joined[k] == 0 && !IsHole(k)
    ensures joined != Holed(p)
  {
    assert k < |p| ==> Holed(p)[k] == p[k];
  }

  /**
   For every length, the joined contents are the holed payload exactly when the length field can hold
   the payload length.
   */
  lemma {:induction false} HoledIffLengthFieldFits(topic: seq<Byte>, id: seq<Byte>, p: seq<Byte>)
    requires StrLen(topic) < UINT16 && NulFree(p)
    ensures Joined(WrittenFrames(topic, id, p, FragmentCount(|p|))) == Holed(p) <==> |p| < UINT16
  {
    if |p| < UINT16 {
      WrittenContentIsHoled(topic, id, p);
    } else if |p| <= PLAN_LIMIT {
      StrLenOfNulFree(p);
      LongJoinIsTooShort(topic, id, p, FragmentCount(|p|));
    } else {
      VeryLongIsNotHoled(topic, id, p);
    }
  }

  /** What the length field of fragment i says: everything that is left, not the chunk. */
  lemma {:induction false} WrittenLengthIsTheRest(topic: seq<Byte>, id: seq<Byte>, p: seq<Byte>, i: nat)
    requires StrLen(topic) < UINT16 && StrLen(p) < UINT16 && i < FragmentCount(StrLen(p))
    ensures WrittenFrames(topic, id, p, FragmentCount(StrLen(p)))[i].header.payloadLen == StrLen(p) - 3943 * i
  {
    NothingWraps(StrLen(p), i);
    FragmentStarts(p, i);
  }

  // ----- which payloads come through -----

  lemma {:induction false} ContentIsInJoin(frames: seq<Frame>, i: nat)
    requires Frames(frames) && i < |frames|
    ensures forall b :: b in Content(frames[i]) ==> b in Joined(frames)
  {
    if i < |frames| - 1 {
      ContentIsInJoin(frames[..|frames| - 1], i);
    }
  }

  /** A fragment that claims a full chunk contributes the closing NUL. */
  lemma {:induction false} FullFragmentHasNul(topic: seq<Byte>, id: seq<Byte>, p: seq<Byte>, i: nat)
    requires StrLen(topic) < UINT16 && Low16(StrLen(Rest(p, i))) >= PAYLOAD_MAX
    ensures 0 in Content(WrittenFrame(topic, id, p, i))
  {
    var frame := WrittenFrame(topic, id, p, i);
    assert Content(frame) == frame.payload;
    assert Content(frame)[PAYLOAD_MAX - 1] == 0;
  }

  lemma ShortHasNoHole(p: seq<Byte>)
    requires |p| <= PAYLOAD_MAX - 1
    ensures Holed(p) == p
  {
    forall k | 0 <= k < |p|
      ensures Holed(p)[k] == p[k]
    {
      HoleInChunk(0, k);
    }
  }

  /** The first or the second fragment of a long payload claims at least a full chunk. */
  lemma SomeFragmentClaimsAChunk(len: nat) returns (i: nat)
    requires len >= PAYLOAD_MAX
    ensures i < FragmentCount(len) && Offset(i) <= len && Low16(len - Offset(i)) >= PAYLOAD_MAX
  {
    if Low16(len) >= PAYLOAD_MAX {
      return 0;
    }
    ChunkBeforeWrap(len);
    return 1;
  }

  /** A short remainder becomes a long one a chunk further on. */
  lemma ChunkBeforeWrap(n: nat)
    requires n >= UINT16 && Low16(n) < PAYLOAD_MAX
    ensures Low16(n - PAYLOAD_MAX) >= PAYLOAD_MAX
  {
  }

  lemma {:induction false} LongPayloadHasNul(topic: seq<Byte>, id: seq<Byte>, p: seq<Byte>, n: nat)
    requires StrLen(topic) < UINT16 && StrLen(p) >= PAYLOAD_MAX && n == FragmentCount(StrLen(p))
    ensures 0 in Joined(WrittenFrames(topic, id, p, n))
  {
    var i := SomeFragmentClaimsAChunk(StrLen(p));
    FragmentStarts(p, i);
    FullFragmentHasNul(topic, id, p, i);
    ContentIsInJoin(WrittenFrames(topic, id, p, n), i);
  }

  /**
   A payload of any length comes through intact exactly when it has at most 3942 bytes: one fragment
   that leaves room for the closing NUL.
   */
  lemma {:induction false} PayloadSurvivesIffShort(topic: seq<Byte>, id: seq<Byte>, p: seq<Byte>)
    requires StrLen(topic) < UINT16 && NulFree(p)
    ensures StrLen(p) == |p|
    ensures Joined(WrittenFrames(topic, id, p, FragmentCount(|p|))) == p <==> |p| <= PAYLOAD_MAX - 1
  {
    StrLenOfNulFree(p);
    var frames := WrittenFrames(topic, id, p, FragmentCount(|p|));
    if |p| <= PAYLOAD_MAX - 1 {
      WrittenContentIsHoled(topic, id, p);
      ShortHasNoHole(p);
    } else {
      LongPayloadHasNul(topic, id, p, FragmentCount(|p|));
    }
  }
}
