/** Serialization of single messages: header followed by exactly payload_len bytes. */
module Protocol {
  import opened Bytes
  import opened MessageFormat

  datatype Msg = Msg(header: Header, payload: seq<Byte>)

  predicate WellFormedMsg(m: Msg) {
    WellFormed(m.header) && |m.payload| == m.header.payloadLen
  }

  function Encode(m: Msg): (b: seq<Byte>)
    requires WellFormedMsg(m)
    ensures |b| == HEADER_SIZE + m.header.payloadLen
  {
    EncodeHeader(m.header) + m.payload
  }

  function Decode(b: seq<Byte>): (r: Option<Msg>)
    ensures r.Some? ==> WellFormedMsg(r.value)
  {
    if |b| < HEADER_SIZE then None
    else
      var h := DecodeHeader(b[..HEADER_SIZE]);
      if |b| != HEADER_SIZE + h.payloadLen then None else Some(Msg(h, b[HEADER_SIZE..]))
  }

  lemma DecodeAfterEncode(m: Msg)
    requires WellFormedMsg(m)
    ensures Decode(Encode(m)) == Some(m)
  {
    assert Encode(m)[..HEADER_SIZE] == EncodeHeader(m.header);
    DecodeEncodeHeader(m.header);
  }

  lemma EncodeAfterDecode(b: seq<Byte>)
    requires Decode(b).Some?
    ensures Encode(Decode(b).value) == b
  {
    EncodeDecodeHeader(b[..HEADER_SIZE]);
  }

  /** The format delimits itself: no encoding is a proper prefix of another. */
  lemma NoEncodingIsAProperPrefix(a: Msg, b: Msg)
    requires WellFormedMsg(a) && WellFormedMsg(b)
    requires Encode(a) <= Encode(b)
    ensures a == b
  {
    assert Encode(a)[..HEADER_SIZE] == EncodeHeader(a.header);
    assert Encode(b)[..HEADER_SIZE] == EncodeHeader(b.header);
    assert EncodeHeader(a.header) == EncodeHeader(b.header);
    DecodeEncodeHeader(a.header);
    DecodeEncodeHeader(b.header);
    assert Encode(a) == Encode(b);
    DecodeAfterEncode(a);
    DecodeAfterEncode(b);
  }

  // ----- streams of messages -----

  ghost predicate AllWellFormed(ms: seq<Msg>) {
    forall i :: 0 <= i < |ms| ==> WellFormedMsg(ms[i])
  }

  ghost function EncodeAll(ms: seq<Msg>): seq<Byte>
    requires AllWellFormed(ms)
  {
    if ms == [] then [] else Encode(ms[0]) + EncodeAll(ms[1..])
  }

  /** Reads messages off the front of a byte stream, each as long as its header says. */
  function ParseStream(b: seq<Byte>): Option<seq<Msg>> {
    if b == [] then Some([])
    else if |b| < HEADER_SIZE then None
    else
      var n := HEADER_SIZE + DecodeHeader(b[..HEADER_SIZE]).payloadLen;
      if |b| < n then None
      else match (Decode(b[..n]), ParseStream(b[n..]))
        case (Some(m), Some(rest)) => Some([m] + rest)
        case _ => None
  }

  lemma {:induction false} ParseOfEncodings(ms: seq<Msg>)
    requires AllWellFormed(ms)
    ensures ParseStream(EncodeAll(ms)) == Some(ms)
  {
    if ms != [] {
      var b, n := EncodeAll(ms), |Encode(ms[0])|;
      assert b[..n] == Encode(ms[0]) && b[n..] == EncodeAll(ms[1..]);
      assert b[..HEADER_SIZE] == EncodeHeader(ms[0].header);
      DecodeEncodeHeader(ms[0].header);
      DecodeAfterEncode(ms[0]);
      ParseOfEncodings(ms[1..]);
      assert ms == [ms[0]] + ms[1..];
    }
  }

  lemma {:induction false} EncodingsOfParse(b: seq<Byte>)
    requires ParseStream(b).Some?
    ensures AllWellFormed(ParseStream(b).value) && EncodeAll(ParseStream(b).value) == b
  {
    if b != [] {
      var n := HEADER_SIZE + DecodeHeader(b[..HEADER_SIZE]).payloadLen;
      var m, rest := Decode(b[..n]).value, ParseStream(b[n..]).value;
      EncodeAfterDecode(b[..n]);
      EncodingsOfParse(b[n..]);
      assert ([m] + rest)[1..] == rest;
      assert b == b[..n] + b[n..];
    }
  }

  /** Concatenated encodings parse in one way only: equal streams come from equal messages. */
  lemma {:induction false} StreamsParseUniquely(ms: seq<Msg>, ns: seq<Msg>)
    requires AllWellFormed(ms) && AllWellFormed(ns) && EncodeAll(ms) == EncodeAll(ns)
    ensures ms == ns
  {
    ParseOfEncodings(ms);
    ParseOfEncodings(ns);
  }

  // ----- the two functions on a caller's buffer -----

  /** Quekka_message: a header and a fixed payload area. */
  class Message {
    var header: Header
    const payload: array<Byte>

    ghost predicate Valid()
      reads this
    {
      WellFormed(header) && payload.Length == PAYLOAD_MAX
    }

    /** The message as a value: the header and the payload_len bytes it speaks for. */
    ghost function Value(): (m: Msg)
      requires Valid() && header.payloadLen <= PAYLOAD_MAX
      reads this, payload
      ensures WellFormedMsg(m)
    {
      Msg(header, payload[..header.payloadLen])
    }

    constructor (header: Header)
      requires WellFormed(header)
      ensures Valid() && this.header == header && fresh(payload)
    {
      this.header := header;
      payload := new Byte[PAYLOAD_MAX](_ => 0);
    }
  }

  /** The message's payload_len must fit its payload area, unless the buffer is too short anyway. */
  method Serialize(message: Message, buf: array<Byte>, size: nat) returns (r: int)
    requires message.Valid() && size <= buf.Length && buf != message.payload
    requires message.header.payloadLen <= PAYLOAD_MAX || size < HEADER_SIZE + message.header.payloadLen
    modifies buf
    ensures size < HEADER_SIZE + message.header.payloadLen <==> r == -1
    ensures r == -1 ==> buf[..] == old(buf[..])
    ensures r != -1 ==> r == 153 + message.header.payloadLen
    ensures r != -1 ==> buf[..] == Encode(message.Value()) + old(buf[..])[r..]
    ensures r != -1 ==>
              buf[..153] == EncodeHeader(message.header) && buf[153..r] == message.payload[..message.header.payloadLen]
  {
    var len := message.header.payloadLen;
    var total := HEADER_SIZE + len;
    if size < total {
      return -1;
    }
    var head := EncodeHeader(message.header);
    forall i | 0 <= i < HEADER_SIZE {
      buf[i] := head[i];
    }
    forall i | 0 <= i < len {
      buf[HEADER_SIZE + i] := message.payload[i];
    }
    r := total;
    assert buf[..HEADER_SIZE] == head;
    assert buf[HEADER_SIZE..total] == message.payload[..len];
    assert buf[..] == buf[..HEADER_SIZE] + buf[HEADER_SIZE..total] + buf[total..];
  }

  /**
   On a size mismatch the header has already been overwritten but the payload area has not. An
   encoding must fit the payload area, which the code itself does not check.
   */
  method Deserialize(buf: array<Byte>, message: Message, size: nat) returns (r: int)
    requires message.Valid() && size <= buf.Length && buf != message.payload
    requires Decode(buf[..size]).Some? ==> size <= MSG_SIZE
    modifies message`header, message.payload
    ensures message.Valid()
    ensures r == if Decode(buf[..size]).None? then -1 else size
    ensures r != -1 ==>
              && message.header.payloadLen <= PAYLOAD_MAX
              && Some(message.Value()) == Decode(buf[..size])
              && message.header == DecodeHeader(buf[..153]) && message.payload[..size - 153] == buf[153..size]
              && message.payload[size - HEADER_SIZE..] == old(message.payload[size - HEADER_SIZE..])
    ensures r == -1 ==> message.payload[..] == old(message.payload[..])
    ensures r == -1 ==>
              message.header == if size < HEADER_SIZE then old(message.header) else DecodeHeader(buf[..HEADER_SIZE])
  {
    ghost var bytes := buf[..size];
    if size < HEADER_SIZE {
      return -1;
    }
    assert bytes[..HEADER_SIZE] == buf[..HEADER_SIZE];
    var head := DecodeHeader(buf[..HEADER_SIZE]);
    message.header := head;
    var len := head.payloadLen;
    if size != len + HEADER_SIZE {
      return -1;
    }
    assert Decode(bytes) == Some(Msg(head, bytes[HEADER_SIZE..]));
    CopyPayload(buf, message.payload, len);
    assert bytes[HEADER_SIZE..] == buf[HEADER_SIZE..size];
    return size;
  }

  method CopyPayload(buf: array<Byte>, payload: array<Byte>, len: nat)
    requires HEADER_SIZE + len <= buf.Length && len <= payload.Length && buf != payload
    modifies payload
    ensures payload[..len] == buf[HEADER_SIZE..HEADER_SIZE + len]
    ensures payload[len..] == old(payload[len..])
  {
    forall i | 0 <= i < len {
      payload[i] := buf[HEADER_SIZE + i];
    }
  }
}
