/**
 What a producer's frame looks like on the wire, byte by byte, in terms of the C strings it was made
 from and of nothing else: the packed struct of 4096 bytes, with the fields where a receiver finds them.
 */
module Layout {
  import opened Bytes
  import opened MessageFormat

  /** A 16-bit field, low byte first. */
  function Field16(b: seq<Byte>, at: nat): nat
    requires at + 1 < |b|
  {
    b[at] as int + 256 * (b[at + 1] as int)
  }

  /** size bytes from at on: the first limit bytes of a string, as far as it goes, and NULs. */
  predicate HoldsString(b: seq<Byte>, at: nat, size: nat, s: seq<Byte>, limit: nat)
    requires at + size <= |b|
  {
    forall k :: at <= k < at + size ==> b[k] == if k - at < limit && k - at < StrLen(s) then s[k - at] else 0
  }

  /** The fields of header_assemble: four bytes of topic and id, and the topic length. */
  predicate NamesTopic(b: seq<Byte>, topic: seq<Byte>, id: seq<Byte>)
    requires |b| >= 153
  {
    HoldsString(b, 0, 128, topic, 4) && HoldsString(b, 128, 18, id, 4) && Field16(b, 146) == StrLen(topic)
  }

  /** Frame number i of a publish, which starts at a multiple of the 16-bit counter. */
  predicate IsFragment(b: seq<Byte>, topic: seq<Byte>, id: seq<Byte>, payload: seq<Byte>, i: nat)
    requires |b| == 4096 && 3943 * (i % 65536) <= StrLen(payload)
  {
    var at := 3943 * (i % 65536);
    && NamesTopic(b, topic, id)
    && Field16(b, 148) == (StrLen(payload) - at) % 65536
    && Field16(b, 150) == i % 65536
    && b[152] == 0
    && HoldsString(b, 153, 3943, payload[at..], 3942)
  }

  /** Where the fields of a header are. */
  lemma HeaderLayout(h: Header)
    requires WellFormed(h)
    ensures var b := EncodeHeader(h);
            && |b| == 153 && b[..128] == h.topic && b[128..146] == h.messageId
            && Field16(b, 146) == h.topicLen && Field16(b, 148) == h.payloadLen && Field16(b, 150) == h.seqNo
            && b[152] == h.flags
  {
    EncodedFields(h);
    var b := EncodeHeader(h);
    assert b[146] == b[146..148][0] && b[147] == b[146..148][1];
    assert b[148] == b[148..150][0] && b[149] == b[148..150][1];
    assert b[150] == b[150..152][0] && b[151] == b[150..152][1];
  }

  /** A frame is its header followed by its payload area. */
  lemma WireLayout(f: Frame)
    requires WellFormedFrame(f)
    ensures |Wire(f)| == 4096 && Wire(f)[..153] == EncodeHeader(f.header) && Wire(f)[153..] == f.payload
  {
  }

  /** What a receiver reads from a header that names a topic. */
  lemma {:induction false} NameReads(h: Header, topic: seq<Byte>, id: seq<Byte>)
    requires WellFormed(h) && |EncodeHeader(h)| == 153 && NamesTopic(EncodeHeader(h), topic, id)
    ensures CString(h.topic) == CString(topic)[..Min(4, StrLen(topic))]
    ensures CString(h.messageId) == CString(id)[..Min(4, StrLen(id))]
    ensures h.topicLen == StrLen(topic)
  {
    var b := EncodeHeader(h);
    HeaderLayout(h);
    FieldReadsAs(b, 0, 128, topic, 4);
    FieldReadsAs(b, 128, 18, id, 4);
    assert b[0..128] == h.topic && b[128..128 + 18] == h.messageId;
  }

  /** strncpy followed by zeroed memory. */
  lemma CopyHolds(s: seq<Byte>, n: nat, size: nat)
    requires n <= size
    ensures HoldsString(StrNCopy(s, n) + Zeros(size - n), 0, size, s, n)
  {
  }

  lemma Moved(b: seq<Byte>, at: nat, size: nat, s: seq<Byte>, limit: nat, field: seq<Byte>)
    requires at + size <= |b| && field == b[at..at + size] && HoldsString(field, 0, size, s, limit)
    ensures HoldsString(b, at, size, s, limit)
  {
    forall k | at <= k < at + size
      ensures b[k] == if k - at < limit && k - at < StrLen(s) then s[k - at] else 0
    {
      assert field[k - at] == b[k];
    }
  }

  lemma {:induction false} StrLenIs(mem: seq<Byte>, n: nat)
    requires n <= |mem| && NulFree(mem[..n]) && (n < |mem| ==> mem[n] == 0)
    ensures StrLen(mem) == n
  {
    if n > 0 {
      assert mem[0] == mem[..n][0];
      assert mem[1..][..n - 1] == mem[..n][1..];
      StrLenIs(mem[1..], n - 1);
    }
  }

  /** Read as a C string, such a field gives the string as far as it was copied. */
  lemma {:induction false} FieldReadsAs(b: seq<Byte>, at: nat, size: nat, s: seq<Byte>, limit: nat)
    requires at + size <= |b| && limit < size && HoldsString(b, at, size, s, limit)
    ensures CString(b[at..at + size]) == CString(s)[..Min(limit, StrLen(s))]
  {
    StrLenIsTheFirstNul(s);
    var field, m := b[at..at + size], Min(limit, StrLen(s));
    forall k | 0 <= k < m
      ensures field[k] == CString(s)[k]
    {
      assert field[k] == b[at + k];
    }
    assert field[m] == b[at + m] == 0;
    assert field[..m] == CString(s)[..m];
    StrLenIs(field, m);
  }
}
