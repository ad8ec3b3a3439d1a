/** The packets byte by byte, as sections 2.2 and 3 of MQTT 3.1.1 number them: what is built, what is taken apart, and
    that whatever a peer may send is a packet to the receiver. */
module PacketBytes {
  import opened Bytes
  import opened FixedHeader
  import opened Wire
  import opened Framing
  import opened ClientBytes
  import ConnectMsg
  import SubscribeMsg
  import Mqtt5Wire
  import Session

  // ---- what is built ---------------------------------------------------------------------------

  lemma AckBytes(id: nat)
    requires id < 65536
    ensures AckPacket(PUBACK, 0, id) == [0x40, 2, id / 256, id % 256]
    ensures AckPacket(PUBREC, 0, id) == [0x50, 2, id / 256, id % 256]
    ensures AckPacket(PUBREL, 1, id) == [0x62, 2, id / 256, id % 256]
    ensures AckPacket(PUBCOMP, 0, id) == [0x70, 2, id / 256, id % 256]
  {
  }

  /** Flags, length, topic, identifier if there is one, payload. */
  lemma PublishBytes(dup: nat, qos: nat, retain: nat, topic: seq<byte>, id: nat, payload: seq<byte>)
    requires dup < 2 && qos < 3 && retain < 2 && |topic| < 65536 && id < 65536
    ensures var p := PublishPacket(dup, qos, retain, topic, id, payload);
      var body := [|topic| / 256, |topic| % 256] + topic + (if qos == 0 then [] else [id / 256, id % 256]) + payload;
      && p == [0x30 + 8 * dup + 2 * qos + retain] + EncodeLen(|body|) + body
      && (|body| < 128 ==> EncodeLen(|body|) == [|body|])
  {
  }

  lemma Publish5First(qos: nat, retain: nat, topic: seq<byte>, id: nat, p: Mqtt5Wire.Props, payload: seq<byte>)
    requires qos < 3 && retain < 2
    ensures Mqtt5Wire.Publish5(qos, retain, topic, id, p, payload)[0] == 0x30 + 2 * qos + retain
  {
  }

  /** The identifier in front of each property. */
  lemma PropertyTags(p: Mqtt5Wire.Property)
    ensures Mqtt5Wire.Encode(p)[0] == match p
      case Format(_) => 0x01
      case Expiry(_) => 0x02
      case ContentType(_) => 0x03
      case ResponseTopic(_) => 0x08
      case Correlation(_) => 0x09
      case SubscriptionId(_) => 0x0B
      case Reason(_) => 0x1F
      case Alias(_) => 0x23
      case User(_) => 0x26
  {
  }

  /** Protocol name and level of MQTT 3.1 and 3.1.1, flags and keepalive. */
  lemma ConnectBytes(info: ConnectMsg.Info)
    requires info.keepalive < 65536
    ensures var p, b := ConnectMsg.ConnectPacket(info), ConnectMsg.ConnectBody(info);
      var f, k := ConnectMsg.InfoFlags(info), [info.keepalive / 256, info.keepalive % 256];
      && p == [0x10] + EncodeLen(|b|) + b
      && (if info.v31 then [0, 6, 77, 81, 73, 115, 100, 112, 3, f] + k else [0, 4, 77, 81, 84, 84, 4, f] + k) <= b
  {
    hide ConnectMsg.Flags, ConnectMsg.InfoFlags, ConnectMsg.Fields, EncodeLen;
  }

  /** Each bit of the flags says what it should. */
  lemma ConnectFlags(info: ConnectMsg.Info)
    requires info.will.qos < 3
    ensures var f := ConnectMsg.InfoFlags(info); var w := info.will.topic != [];
      && (f / 128 == 1 <==> info.username != [] || info.password != [])
      && (f / 64 % 2 == 1 <==> info.password != [])
      && (f / 32 % 2 == 1 <==> w && info.will.retain)
      && f / 8 % 4 == (if w then info.will.qos else 0)
      && (f / 4 % 2 == 1 <==> w)
      && (f / 2 % 2 == 1 <==> info.clean)
      && f % 2 == 0
  {
    hide ConnectMsg.Flags;
    var w := info.will.topic != [];
    ConnectMsg.FlagsFields(info.username != [] || info.password != [], info.password != [], w && info.will.retain,
                           if w then info.will.qos else 0, w, info.clean);
  }

  /** A SUBSCRIBE for one filter. */
  lemma SubscribeBytes(id: nat, filter: seq<byte>, qos: nat)
    requires id < 65536 && |filter| < 65536 && qos < 3
    ensures var p := SubscribeMsg.SubscribePacket(id, [SubscribeMsg.Topic(filter, qos)]);
      var body := [id / 256, id % 256, |filter| / 256, |filter| % 256] + filter + [qos];
      p == [0x82] + EncodeLen(|body|) + body
  {
    var t := SubscribeMsg.Topic(filter, qos);
    assert [t][..0] == [];
    assert SubscribeMsg.TopicsBytes([t]) == SubscribeMsg.TopicBytes(t);
    assert U16(id) + SubscribeMsg.TopicBytes(t) == [id / 256, id % 256, |filter| / 256, |filter| % 256] + filter + [qos];
  }

  // ---- what is taken apart ---------------------------------------------------------------------

  /** The replies a broker sends, whatever the identifier. */
  lemma ReplyBytes(hi: byte, lo: byte, code: byte)
    ensures PacketOf([0x40, 2, hi, lo]) == Session.Puback(256 * hi + lo)
    ensures PacketOf([0x50, 2, hi, lo]) == Session.Pubrec(256 * hi + lo)
    ensures PacketOf([0x62, 2, hi, lo]) == Session.Pubrel(256 * hi + lo)
    ensures PacketOf([0x70, 2, hi, lo]) == Session.Pubcomp(256 * hi + lo)
    ensures PacketOf([0x90, 3, hi, lo, code]) == Session.Suback(256 * hi + lo, true)
    ensures PacketOf([0xB0, 2, hi, lo]) == Session.Unsuback(256 * hi + lo)
    ensures PacketOf([0xD0, 0]) == Session.Pingresp
  {
  }

  /** A PUBLISH from a peer with a topic, whatever its flags. */
  lemma PublishDecodes(dup: nat, qos: nat, retain: nat, topic: seq<byte>, id: nat, payload: seq<byte>)
    requires dup < 2 && qos < 3 && retain < 2 && 0 < |topic| < 65536 && id < 65536
    ensures PacketOf(PublishPacket(dup, qos, retain, topic, id, payload))
         == Session.Publish(if qos == 0 then 0 else id, qos, 1, true, false)
  {
    hide Header, TypeOf, QosOf, PublishHead, TopicOf, IdOf;
    HeaderFields(PUBLISH, dup, qos, retain);
    var p := PublishPacket(dup, qos, retain, topic, id, payload);
    assert p[..|p|] == p;
    PublishReads(Header(PUBLISH, dup, qos, retain), topic, id, payload, |p|);
  }

  /** What the readers make of any bytes `rest` behind a first byte and one length byte: the topic must be there whole and, for a
      PUBLISH of QoS 1 or 2, the identifier too; an empty topic that ends the buffer counts as none, and payload is
      found only where at least one byte of it is. */
  lemma ReadersOnShort(h: byte, n: byte, rest: seq<byte>, t: nat)
    requires n < 128 && |rest| >= 2 && t == Word(rest[0], rest[1])
    ensures var b := [h, n] + rest; var qos := h / 2 % 4;
      var k: nat := if qos == 0 then 2 + t else 4 + t;
      && t == 256 * rest[0] as int + rest[1] as int
      && TopicOf(b) == (if |rest| == 2 || |rest| < 2 + t then None else Some(rest[2..2 + t]))
      && (h / 16 == 3 ==> IdOf(b) == (if |rest| == 2 || qos == 0 || |rest| < k then 0 else 256 * rest[2 + t] as int + rest[3 + t] as int))
      && DataOf(b) == (if |rest| <= k || n < k then None else Some((2 + k, (if n < |rest| then n else |rest|) - k)))
  {
    var b := [h, n] + rest;
    assert b[1..] == [n] + rest;
    if |rest| >= 2 + t { assert b[4..4 + t] == rest[2..2 + t]; }
  }

  // ---- what the receiver takes for a packet ------------------------------------------------------

  /** Exactly the packets with a legal first byte and a length that four bytes can hold. */
  lemma PacketIsFrame(header: byte, body: seq<byte>)
    ensures Frame(Packet(header, body)) <==> ValidHeader(header) && |body| < 0x1000_0000
  {
    hide LenBytes, LenValue, EncodeLen, ValidHeader;
    var e := EncodeLen(|body|);
    var p := Packet(header, body);
    PacketReads(header, body, |p|);
    assert p[..|p|] == p && p[1..] == e + body;
    EncodeLenShape(|body|);
    EncodeLenSize(|body|);
    LenRoundTrip(|body|, body);
  }

  /** So every PUBLISH a peer may send is one, and every acknowledgement. */
  lemma PublishIsFrame(dup: nat, qos: nat, retain: nat, topic: seq<byte>, id: nat, payload: seq<byte>)
    requires dup < 2 && qos < 4 && retain < 2
    ensures Frame(PublishPacket(dup, qos, retain, topic, id, payload)) <==>
      qos < 3 && (qos == 0 ==> dup == 0) && 2 + |topic| + (if qos == 0 then 0 else 2) + |payload| < 0x1000_0000
  {
    hide Frame, Packet, Header, TypeOf, DupOf, QosOf;
    HeaderFields(PUBLISH, dup, qos, retain);
    PacketIsFrame(Header(PUBLISH, dup, qos, retain), PublishHead(topic, qos, id) + payload);
  }

  lemma AckIsFrame(mtype: nat, qos: nat, id: nat)
    requires mtype in {PUBACK, PUBREC, PUBREL, PUBCOMP, UNSUBACK} && qos < 4
    ensures Frame(AckPacket(mtype, qos, id)) <==> qos == if mtype == PUBREL then 1 else 0
  {
    hide Frame, Packet;
    PacketIsFrame(Header(mtype, 0, qos, 0), U16(id));
  }
}
