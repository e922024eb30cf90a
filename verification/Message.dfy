/**
 The wire format: a packed 153-byte header and its fields, with the 16-bit fields in little-endian
 order, and the C strings the producer copies from.
 */
module MessageFormat {
  import opened Bytes

  const MSG_SIZE := 4096
  const TOPIC_MAX := 128
  const MSG_ID_MAX := 18
  const HEADER_SIZE := 153
  const PAYLOAD_MAX := 3943
  const FLAG_MORE: Byte := 0
  const FLAG_LAST: Byte := 1
  const UINT16 := 65536        // the number of values of a uint16_t

  datatype Header = Header(
    topic: seq<Byte>,
    messageId: seq<Byte>,
    topicLen: nat,
    payloadLen: nat,
    seqNo: nat,
    flags: Byte)

  predicate WellFormed(h: Header) {
    && |h.topic| == TOPIC_MAX && |h.messageId| == MSG_ID_MAX
    && h.topicLen < UINT16 && h.payloadLen < UINT16 && h.seqNo < UINT16
  }

  /** Conversion to uint16_t. */
  function Low16(n: nat): (r: nat)
    ensures r < UINT16 && r <= n
    ensures n < UINT16 ==> r == n
  {
    n % 65536
  }

  /** Incrementing a 16-bit counter. */
  lemma Low16Increment(n: nat)
    ensures Low16(Low16(n) + 1) == Low16(n + 1)
  {
  }

  function U16(n: nat): (r: seq<Byte>)
    requires n < UINT16
    ensures |r| == 2 && r[0] as int + 256 * (r[1] as int) == n
  {
    [n % 256, n / 256]
  }

  function FromU16(lo: Byte, hi: Byte): (n: nat)
    ensures n < UINT16 && U16(n) == [lo, hi]
  {
    lo as int + 256 * (hi as int)
  }

  function EncodeHeader(h: Header): (b: seq<Byte>)
    requires WellFormed(h)
    ensures |b| == HEADER_SIZE
  {
    h.topic + h.messageId + U16(h.topicLen) + U16(h.payloadLen) + U16(h.seqNo) + [h.flags]
  }

  function DecodeHeader(b: seq<Byte>): (h: Header)
    requires |b| == HEADER_SIZE
    ensures WellFormed(h)
  {
    Header(b[..128], b[128..146], FromU16(b[146], b[147]), FromU16(b[148], b[149]), FromU16(b[150], b[151]), b[152])
  }

  lemma EncodedFields(h: Header)
    requires WellFormed(h)
    ensures var b := EncodeHeader(h);
            && b[..128] == h.topic && b[128..146] == h.messageId
            && b[146..148] == U16(h.topicLen) && b[148..150] == U16(h.payloadLen) && b[150..152] == U16(h.seqNo)
            && b[152] == h.flags
  {
  }

  lemma DecodeEncodeHeader(h: Header)
    requires WellFormed(h)
    ensures DecodeHeader(EncodeHeader(h)) == h
  {
    EncodedFields(h);
    var b := EncodeHeader(h);
    assert b[146] == b[146..148][0] && b[147] == b[146..148][1];
    assert b[148] == b[148..150][0] && b[149] == b[148..150][1];
    assert b[150] == b[150..152][0] && b[151] == b[150..152][1];
  }

  lemma EncodeDecodeHeader(b: seq<Byte>)
    requires |b| == HEADER_SIZE
    ensures EncodeHeader(DecodeHeader(b)) == b
  {
    assert b == b[..128] + b[128..146] + [b[146], b[147]] + [b[148], b[149]] + [b[150], b[151]] + [b[152]];
  }

  // ----- frames -----

  /** Quekka_message: what one send puts on the wire. */
  datatype Frame = Frame(header: Header, payload: seq<Byte>)

  predicate WellFormedFrame(f: Frame) {
    WellFormed(f.header) && |f.payload| == PAYLOAD_MAX
  }

  function Wire(f: Frame): (b: seq<Byte>)
    requires WellFormedFrame(f)
    ensures |b| == MSG_SIZE
  {
    EncodeHeader(f.header) + f.payload
  }

  function ReadFrame(b: seq<Byte>): (f: Frame)
    requires |b| == MSG_SIZE
    ensures WellFormedFrame(f)
  {
    Frame(DecodeHeader(b[..HEADER_SIZE]), b[HEADER_SIZE..])
  }

  /** Frames and 4096-byte strings correspond one to one. */
  lemma ReadOfWire(f: Frame)
    requires WellFormedFrame(f)
    ensures ReadFrame(Wire(f)) == f
  {
    assert Wire(f)[..HEADER_SIZE] == EncodeHeader(f.header);
    DecodeEncodeHeader(f.header);
  }

  lemma WireOfRead(b: seq<Byte>)
    requires |b| == MSG_SIZE
    ensures Wire(ReadFrame(b)) == b
  {
    EncodeDecodeHeader(b[..HEADER_SIZE]);
    assert b == b[..HEADER_SIZE] + b[HEADER_SIZE..];
  }

  ghost predicate Frames(frames: seq<Frame>) {
    forall i :: 0 <= i < |frames| ==> WellFormedFrame(frames[i])
  }

  ghost function WireAll(frames: seq<Frame>): (blocks: seq<seq<Byte>>)
    requires Frames(frames)
    ensures |blocks| == |frames| && forall i :: 0 <= i < |frames| ==> blocks[i] == Wire(frames[i])
  {
    seq(|frames|, i requires 0 <= i < |frames| => Wire(frames[i]))
  }

  // ----- C strings -----

  /** strlen of the memory a pointer points at; a NUL follows the given bytes. */
  function StrLen(mem: seq<Byte>): (n: nat)
    ensures n <= |mem|
  {
    if mem == [] || mem[0] == 0 then 0 else 1 + StrLen(mem[1..])
  }

  function CString(mem: seq<Byte>): seq<Byte> {
    mem[..StrLen(mem)]
  }

  predicate NulFree(s: seq<Byte>) {
    forall i :: 0 <= i < |s| ==> s[i] != 0
  }

  /** The n bytes strncpy writes: the string, cut off or padded with NULs. */
  function StrNCopy(src: seq<Byte>, n: nat): (r: seq<Byte>)
    ensures |r| == n
  {
    if StrLen(src) >= n then src[..n] else src[..StrLen(src)] + Zeros(n - StrLen(src))
  }

  lemma {:induction false} StrLenIsTheFirstNul(mem: seq<Byte>)
    ensures StrLen(mem) < |mem| ==> mem[StrLen(mem)] == 0
    ensures NulFree(CString(mem))
  {
    if mem != [] && mem[0] != 0 {
      StrLenIsTheFirstNul(mem[1..]);
      assert CString(mem) == [mem[0]] + CString(mem[1..]);
    }
  }

  lemma {:induction false} StrLenOfNulFree(s: seq<Byte>)
    requires NulFree(s)
    ensures StrLen(s) == |s|
  {
    if s != [] {
      assert NulFree(s[1..]);
      StrLenOfNulFree(s[1..]);
    }
  }

  lemma {:induction false} StrLenOfSuffix(mem: seq<Byte>, at: nat)
    requires at <= StrLen(mem)
    ensures StrLen(mem[at..]) == StrLen(mem) - at
  {
    if at == 0 {
      assert mem[0..] == mem;
    } else {
      assert mem[1..][at - 1..] == mem[at..];
      StrLenOfSuffix(mem[1..], at - 1);
    }
  }
}
