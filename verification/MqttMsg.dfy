/** The outbound message buffer and the MQTT 3.1.1 packet builders working in it. */
module MqttMsg {
  import opened Bytes
  import opened FixedHeader
  import opened Wire

  /** Room kept in front of every message for its type byte and up to four length bytes. */
  const MAX_FIXED_HEADER := 5

  /** Number of reserved bytes left unused in front of a message of remaining length `n`. */
  function Gap(n: nat): nat
    requires |EncodeLen(n)| <= 4
  {
    4 - |EncodeLen(n)|
  }

  /** The remaining length the header announces: an unfinished fragmented message overrides the real one. */
  function Announced(bodyLen: nat, fragTotal: nat): nat
    requires fragTotal == 0 || fragTotal >= MAX_FIXED_HEADER
  {
    if fragTotal != 0 then fragTotal - MAX_FIXED_HEADER else bodyLen
  }

  /** A message whose length field announces `n`, whatever the body. */
  function Announcing(header: byte, n: nat, body: seq<byte>): seq<byte> {
    [header] + EncodeLen(n) + body
  }

  class Connection {
    const buffer: array<byte>
    /** The outbound message is `length` bytes from offset `start`. */
    var start: nat
    var length: nat
    var fragTotal: nat
    var fragOffset: int

    /** Between messages. */
    ghost predicate Valid()
      reads this
    {
      && MAX_FIXED_HEADER <= buffer.Length
      && start + length <= buffer.Length
      && (fragTotal == 0 || fragTotal >= MAX_FIXED_HEADER)
    }

    /** While a message is being put together, `length` counts from the start of the buffer. */
    ghost predicate Building()
      reads this
    {
      && MAX_FIXED_HEADER <= length <= buffer.Length
      && (fragTotal == 0 || fragTotal >= MAX_FIXED_HEADER)
    }

    ghost function Body(): seq<byte>
      requires Building()
      reads this, buffer
    {
      buffer[MAX_FIXED_HEADER..length]
    }

    ghost function Message(): seq<byte>
      requires Valid()
      reads this, buffer
    {
      buffer[start..start + length]
    }

    /** `mqtt_msg_buffer_init` */
    constructor (bufferSize: nat)
      requires bufferSize >= MAX_FIXED_HEADER
      ensures Valid() && fresh(buffer) && buffer.Length == bufferSize
      ensures fragTotal == 0 && fragOffset == 0 && length == 0
    {
      buffer := new byte[bufferSize](_ => 0);
      start, length, fragTotal, fragOffset := 0, 0, 0, 0;
    }

    method SetHeaderSize()
      requires Valid()
      modifies this`length
      ensures Building() && Body() == []
    {
      length := MAX_FIXED_HEADER;
    }

    method Fail()
      requires MAX_FIXED_HEADER <= buffer.Length && (fragTotal == 0 || fragTotal >= MAX_FIXED_HEADER)
      modifies this`start, this`length
      ensures Valid() && start == 0 && length == 0
    {
      start, length := 0, 0;
    }

    /** Copies bytes behind what is already there; the caller has checked that they fit. */
    method Append(s: seq<byte>)
      requires Building() && length + |s| <= buffer.Length
      modifies this`length, buffer
      ensures Building() && length == old(length) + |s| && Body() == old(Body()) + s
    {
      forall k | 0 <= k < |s| {
        buffer[length + k] := s[k];
      }
      length := length + |s|;
      assert buffer[MAX_FIXED_HEADER..length] == old(buffer[MAX_FIXED_HEADER..length]) + s;
    }

    method AppendString(s: seq<byte>) returns (r: int)
      requires Building()
      modifies this`length, buffer
      ensures Building()
      ensures r == if old(length) + |s| + 2 > buffer.Length then -1 else |s| + 2
      ensures r >= 0 ==> Body() == old(Body()) + Str16(s)
      ensures r < 0 ==> length == old(length) && buffer[..] == old(buffer[..])
    {
      if length + |s| + 2 > buffer.Length {
        return -1;
      }
      Append(U16(|s|));
      Append(s);
      return |s| + 2;
    }

    /** Zero asks for a new identifier: `drawn` is the first nonzero random draw. */
    method AppendId(id: nat, drawn: nat) returns (r: nat)
      requires Building() && drawn > 0
      modifies this`length, buffer
      ensures Building()
      ensures r == if old(length) + 2 > buffer.Length then 0 else if id == 0 then drawn else id
      ensures r > 0 ==> Body() == old(Body()) + U16(r)
      ensures r == 0 ==> length == old(length) && buffer[..] == old(buffer[..])
    {
      r := if id == 0 then drawn else id;
      if length + 2 > buffer.Length {
        return 0;
      }
      Append(U16(r));
    }

    /** `fini_message`: the length is encoded low seven bits first, then type byte and length are
        written into the reserved gap so that they end where the body starts. */
    method Finish(mtype: nat, dup: nat, qos: nat, retain: nat)
      requires Building() && mtype < 16 && dup < 2 && qos < 4 && retain < 2
      modifies this`start, this`length, this`fragOffset, buffer
      ensures Valid()
      ensures var n := Announced(|old(Body())|, fragTotal);
        if n >= REMAINING_LIMIT then length == 0 && start == 0 && fragOffset == old(fragOffset)
        else
          && |EncodeLen(n)| <= 4
          && Message() == Announcing(Header(mtype, dup, qos, retain), n, old(Body()))
          && start == Gap(n) && fragOffset == old(fragOffset) - Gap(n)
    {
      ghost var body := Body();
      var messageLength := length - MAX_FIXED_HEADER;
      var total := Announced(messageLength, fragTotal);
      ghost var n := total;
      EncodeLenSize(n);
      var lens := EncodeRemaining(total);
      if |lens| + 1 > MAX_FIXED_HEADER {
        Fail();
        return;
      }
      length := messageLength + |lens| + 1;
      var offs := MAX_FIXED_HEADER - 1 - |lens|;
      start := offs;
      fragOffset := fragOffset - offs;
      WriteFixedHeader(offs, Header(mtype, dup, qos, retain), lens, messageLength);
    }

    /** The type byte and the length bytes, written so that they end where the `n` body bytes start. */
    method WriteFixedHeader(at: nat, header: byte, lens: seq<byte>, ghost n: nat)
      requires at + 1 + |lens| == MAX_FIXED_HEADER && MAX_FIXED_HEADER + n <= buffer.Length
      modifies buffer
      ensures buffer[at..at + (n + |lens| + 1)] == [header] + lens + old(buffer[MAX_FIXED_HEADER..MAX_FIXED_HEADER + n])
    {
      ghost var body := buffer[MAX_FIXED_HEADER..MAX_FIXED_HEADER + n];
      var offs := at;
      buffer[offs] := header;
      offs := offs + 1;
      for j := 0 to |lens|
        invariant offs == at + 1 + j
        invariant buffer[at..offs] == [header] + lens[..j]
        invariant buffer[MAX_FIXED_HEADER..MAX_FIXED_HEADER + n] == body
      {
        buffer[offs] := lens[j];
        offs := offs + 1;
      }
      assert buffer[at..MAX_FIXED_HEADER + n] == buffer[at..offs] + buffer[MAX_FIXED_HEADER..MAX_FIXED_HEADER + n];
    }

    /** One body for the four acknowledgements; only PUBREL carries flag bits. */
    method Acknowledge(mtype: nat, id: nat, drawn: nat)
      requires Valid() && mtype in {PUBACK, PUBREC, PUBREL, PUBCOMP} && drawn > 0
      modifies this`start, this`length, this`fragOffset, buffer
      ensures Valid()
      ensures buffer.Length < MAX_FIXED_HEADER + 2 ==> length == 0
      ensures buffer.Length >= MAX_FIXED_HEADER + 2 ==>
        (fragTotal == 0 || fragTotal == MAX_FIXED_HEADER + 2 <==>
        Message() == AckPacket(mtype, if mtype == PUBREL then 1 else 0, if id == 0 then drawn else id))
    {
      SetHeaderSize();
      var r := AppendId(id, drawn);
      if r == 0 {
        Fail();
        return;
      }
      ghost var body := Body();
      Finish(mtype, 0, if mtype == PUBREL then 1 else 0, 0);
      HeaderChoice(Header(mtype, 0, if mtype == PUBREL then 1 else 0, 0), body, Announced(2, fragTotal));
    }

    /** A payload too long for the buffer fills what is left of it and leaves a note of its size. */
    method AppendPayload(data: seq<byte>)
      requires Building()
      modifies this`length, this`fragTotal, this`fragOffset, buffer
      ensures Building()
      ensures if old(length) + |data| > buffer.Length then
          && length == buffer.Length && Body() == old(Body()) + data[..buffer.Length - old(length)]
          && fragOffset == old(length) && fragTotal == |data| + old(length)
        else
          && Body() == old(Body()) + data && fragOffset == old(fragOffset) && fragTotal == 0
    {
      if length + |data| > buffer.Length {
        fragOffset := length;
        fragTotal := |data| + length;
        Append(data[..buffer.Length - length]);
      } else {
        Append(data);
        fragTotal := 0;
      }
    }

    /** `mqtt_msg_publish`. `data` is absent for a null pointer. */
    method Publish(topic: seq<byte>, data: Option<seq<byte>>, dataLength: nat, qos: nat, retain: nat, drawn: nat)
      returns (id: nat)
      requires Valid() && qos < 4 && retain < 2 && drawn > 0 && (data.Some? ==> dataLength == |data.value|)
      modifies this, buffer
      ensures Valid() && fragTotal == TotalAfter(buffer.Length, topic, data, qos, old(fragTotal))
      ensures !Buildable(buffer.Length, topic, data, dataLength, qos, old(fragTotal)) ==> length == 0
      ensures Buildable(buffer.Length, topic, data, dataLength, qos, old(fragTotal)) ==>
        && id == (if qos > 0 then drawn else 0)
        && length > 0
        && Holds(BuiltPublish(qos, retain, topic, id, data, old(fragTotal)), Payload(data), DataStart(topic, qos), old(fragOffset))
    {
      hide Connection.Holds, Header, EncodeLen, PublishHead;
      HeadLength(topic, qos, drawn);
      HeadLength(topic, qos, 0);
      var ok;
      ok, id := AppendHead(topic, data.None? && dataLength > 0, qos, drawn);
      if !ok {
        return;
      }
      if data.Some? {
        AppendPayload(data.value);
      }
      FinishPublish(PublishHead(topic, qos, id), Payload(data), qos, retain, old(fragOffset));
    }

    /** Topic and identifier; nothing to send under a null pointer. */
    method AppendHead(topic: seq<byte>, noData: bool, qos: nat, drawn: nat) returns (ok: bool, id: nat)
      requires Valid() && drawn > 0
      modifies this`start, this`length, buffer
      ensures ok <==> topic != [] && !noData && DataStart(topic, qos) <= buffer.Length
      ensures ok ==> id == (if qos > 0 then drawn else 0) && Building() && Body() == PublishHead(topic, qos, id)
      ensures !ok ==> Valid() && length == 0
    {
      ok, id := false, 0;
      SetHeaderSize();
      if topic == [] {
        Fail();
        return;
      }
      var r := AppendString(topic);
      if r < 0 || noData {
        Fail();
        return;
      }
      if qos > 0 {
        id := AppendId(0, drawn);
        if id == 0 {
          Fail();
          return;
        }
      }
      ok := true;
    }

    /** The last step of a PUBLISH whose body holds the variable header and as much payload as fits. */
    method FinishPublish(ghost head: seq<byte>, ghost payload: seq<byte>, qos: nat, retain: nat, ghost offsetBefore: int)
      requires Building() && qos < 4 && retain < 2
      requires var D := MAX_FIXED_HEADER + |head|;
        && D <= buffer.Length
        && if D + |payload| > buffer.Length then
             length == buffer.Length && Body() == head + payload[..buffer.Length - D] && fragOffset == D && fragTotal == D + |payload|
           else
             Body() == head + payload && fragOffset == offsetBefore
      modifies this`start, this`length, this`fragOffset, buffer
      ensures Valid()
      ensures var n := Announced(|head| + |payload|, fragTotal);
        if n >= REMAINING_LIMIT then length == 0
        else
          && length > 0
          && Holds(Announcing(Header(PUBLISH, 0, qos, retain), n, head + payload), payload, MAX_FIXED_HEADER + |head|, offsetBefore)
    {
      PublishSplit(Header(PUBLISH, 0, qos, retain), Announced(|head| + |payload|, fragTotal), head, payload, Body());
      Finish(PUBLISH, 0, qos, retain);
    }

    /** What building a PUBLISH leaves behind: either all of `packet` is the outbound message, or its first part
        is and the fragment offset says how much of the payload that part holds. `dataStart` is where the
        payload starts in the buffer, `offsetBefore` the fragment offset before building. */
    ghost predicate Holds(packet: seq<byte>, payload: seq<byte>, dataStart: nat, offsetBefore: int)
      requires Valid()
      reads this, buffer
    {
      if dataStart + |payload| > buffer.Length then
        && dataStart <= buffer.Length
        && fragOffset == dataStart - start && length == buffer.Length - start
        && packet == Message() + payload[buffer.Length - dataStart..]
      else
        && fragOffset == offsetBefore - start && length == dataStart + |payload| - start
        && packet == Message()
    }
  }

  /** Where the payload starts in the buffer. */
  function DataStart(topic: seq<byte>, qos: nat): nat {
    MAX_FIXED_HEADER + 2 + |topic| + if qos > 0 then 2 else 0
  }

  lemma HeadLength(topic: seq<byte>, qos: nat, id: nat)
    ensures MAX_FIXED_HEADER + |PublishHead(topic, qos, id)| == DataStart(topic, qos)
  {
  }

  function Payload(data: Option<seq<byte>>): seq<byte> {
    if data.Some? then data.value else []
  }

  /** The remaining length a PUBLISH announces: a null payload leaves a pending fragment total in force. */
  function PublishLen(topic: seq<byte>, qos: nat, data: Option<seq<byte>>, pending: nat): nat
    requires pending == 0 || pending >= MAX_FIXED_HEADER
  {
    var n := DataStart(topic, qos) - MAX_FIXED_HEADER;
    if data.Some? then n + |data.value| else Announced(n, pending)
  }

  /** What the builder puts together out of all it is given. */
  function BuiltPublish(qos: nat, retain: nat, topic: seq<byte>, id: nat, data: Option<seq<byte>>, pending: nat): seq<byte>
    requires qos < 4 && retain < 2 && (pending == 0 || pending >= MAX_FIXED_HEADER)
  {
    Announcing(Header(PUBLISH, 0, qos, retain), PublishLen(topic, qos, data, pending), PublishHead(topic, qos, id) + Payload(data))
  }

  /** It is the packet, unless a null payload meets a fragment total of another message. */
  lemma BuiltIsPacket(qos: nat, retain: nat, topic: seq<byte>, id: nat, data: Option<seq<byte>>, pending: nat)
    requires qos < 4 && retain < 2 && (pending == 0 || pending >= MAX_FIXED_HEADER)
    ensures BuiltPublish(qos, retain, topic, id, data, pending) == PublishPacket(0, qos, retain, topic, id, Payload(data))
       <==> data.Some? || pending == 0 || pending == DataStart(topic, qos)
  {
    HeadLength(topic, qos, id);
    hide Header, PublishHead, EncodeLen;
    HeaderChoice(Header(PUBLISH, 0, qos, retain), PublishHead(topic, qos, id) + Payload(data), PublishLen(topic, qos, data, pending));
  }

  /** Whether a PUBLISH can be built in a buffer of `size` bytes; the payload need not fit. */
  predicate Buildable(size: nat, topic: seq<byte>, data: Option<seq<byte>>, len: nat, qos: nat, pending: nat)
    requires pending == 0 || pending >= MAX_FIXED_HEADER
  {
    && topic != [] && (data.None? ==> len == 0)
    && DataStart(topic, qos) <= size
    && PublishLen(topic, qos, data, pending) < REMAINING_LIMIT
  }

  /** Topic and identifier fit, the payload does not. */
  predicate Spills(size: nat, topic: seq<byte>, data: Option<seq<byte>>, qos: nat) {
    topic != [] && data.Some? && DataStart(topic, qos) <= size < DataStart(topic, qos) + |data.value|
  }

  /** The fragment total a builder leaves: that of a payload that does not fit, none for one that does, and what was
      there before when it never gets to a payload. */
  function TotalAfter(size: nat, topic: seq<byte>, data: Option<seq<byte>>, qos: nat, pending: nat): nat {
    if Spills(size, topic, data, qos) then DataStart(topic, qos) + |data.value|
    else if topic != [] && data.Some? && DataStart(topic, qos) <= size then 0
    else pending
  }

  /** The encoding loop shared by every builder. */
  method EncodeRemaining(n: nat) returns (lens: seq<byte>)
    ensures lens == EncodeLen(n)
  {
    var total := n;
    lens := [];
    while true
      invariant EncodeLen(n) == lens + EncodeLen(total)
      decreases total
    {
      var encoded: byte := total % 128;
      total := total / 128;
      if total > 0 {
        encoded := encoded + 128;
      }
      lens := lens + [encoded];
      if total == 0 {
        break;
      }
    }
  }

  /** A buffered part of a message and the payload bytes it does not hold make the message. */
  lemma PublishSplit(header: byte, n: nat, head: seq<byte>, payload: seq<byte>, body: seq<byte>)
    requires head <= body <= head + payload
    ensures Announcing(header, n, head + payload) == Announcing(header, n, body) + payload[|body| - |head|..]
  {
    assert head + payload == body + payload[|body| - |head|..];
  }

  /** A length field makes a well-formed packet of `body` only if it announces the true length. */
  lemma HeaderChoice(header: byte, body: seq<byte>, n: nat)
    ensures Announcing(header, n, body) == Packet(header, body) <==> n == |body|
  {
    if Announcing(header, n, body) == Packet(header, body) {
      var a, b := EncodeLen(n), EncodeLen(|body|);
      LenRoundTrip(n, body);
      LenRoundTrip(|body|, body);
      assert ([header] + a + body)[1..] == a + body;
      assert Packet(header, body)[1..] == b + body;
    }
  }
}
