/** Packet layouts of MQTT 3.1.1 and what the client's readers make of a received byte string. */
module Wire {
  import opened Bytes
  import opened FixedHeader

  // ---- layouts -----------------------------------------------------------------------------

  /** A packet as an encoder with unlimited memory would build it. */
  function Packet(header: byte, body: seq<byte>): (p: seq<byte>)
    ensures |p| >= 2
  {
    [header] + EncodeLen(|body|) + body
  }

  function IdField(qos: nat, id: nat): seq<byte> {
    if qos > 0 then U16(id) else []
  }

  function PublishHead(topic: seq<byte>, qos: nat, id: nat): seq<byte> {
    Str16(topic) + IdField(qos, id)
  }

  /** Section 3.3 of MQTT 3.1.1. */
  function PublishPacket(dup: nat, qos: nat, retain: nat, topic: seq<byte>, id: nat, payload: seq<byte>): seq<byte>
    requires dup < 2 && qos < 4 && retain < 2
  {
    Packet(Header(PUBLISH, dup, qos, retain), PublishHead(topic, qos, id) + payload)
  }

  /** Acknowledgements carry nothing but a packet identifier. */
  function AckPacket(mtype: nat, qos: nat, id: nat): seq<byte>
    requires mtype < 16 && qos < 4
  {
    Packet(Header(mtype, 0, qos, 0), U16(id))
  }

  // ---- readers over an arbitrary byte string -----------------------------------------------

  /** Where the variable header starts, as every reader finds it. */
  function FixedLen(b: seq<byte>): (i: nat)
    requires b != []
    ensures 1 <= i <= |b|
  {
    1 + LenBytes(b[1..])
  }

  function TotalLen(b: seq<byte>): nat
    requires b != []
  {
    LenValue(b[1..]) + FixedLen(b)
  }

  function TopicOf(b: seq<byte>): Option<seq<byte>>
    requires b != []
  {
    var i := FixedLen(b);
    if i + 2 >= |b| then None
    else
      var n := Word(b[i], b[i + 1]);
      if i + 2 + n > |b| then None else Some(b[i + 2..i + 2 + n])
  }

  /** Offset and length of the part of the payload that is in `b`. */
  function DataOf(b: seq<byte>): Option<(nat, nat)>
    requires b != []
  {
    var i := FixedLen(b);
    if i + 2 >= |b| then None
    else
      var j := i + 2 + Word(b[i], b[i + 1]);
      if j >= |b| then None
      else if QosOf(b[0]) > 0 && j + 2 >= |b| then None
      else
        var k := if QosOf(b[0]) > 0 then j + 2 else j;
        if TotalLen(b) < k then None
        else Some((k, (if TotalLen(b) <= |b| then TotalLen(b) else |b|) - k))
  }

  function IdOf(b: seq<byte>): nat {
    if b == [] then 0
    else if TypeOf(b[0]) == PUBLISH then
      var i := FixedLen(b);
      if i + 2 >= |b| then 0
      else
        var j := i + 2 + Word(b[i], b[i + 1]);
        if j > |b| || QosOf(b[0]) == 0 || j + 2 > |b| then 0 else Word(b[j], b[j + 1])
    else if TypeOf(b[0]) in {PUBACK, PUBREC, PUBREL, PUBCOMP, SUBACK, UNSUBACK, SUBSCRIBE, UNSUBSCRIBE} then
      if |b| >= 4 && b[1] < 128 then Word(b[2], b[3]) else 0
    else 0
  }

  // ---- round trips -------------------------------------------------------------------------

  /** Any reader given the first byte, the whole length and perhaps more finds the body. */
  lemma PacketReads(header: byte, body: seq<byte>, r: nat)
    requires 1 + |EncodeLen(|body|)| <= r <= |Packet(header, body)|
    ensures var b := Packet(header, body)[..r]; var i := 1 + |EncodeLen(|body|)|;
      && b != [] && b[0] == header && FixedLen(b) == i && TotalLen(b) == i + |body| == |Packet(header, body)|
      && b[i..] == body[..r - i]
  {
    hide EncodeLen, LenBytes, LenValue;
    var e := EncodeLen(|body|);
    Cut(header, e, body, r);
    LenRoundTrip(|body|, body[..r - 1 - |e|]);
  }

  lemma Cut(header: byte, e: seq<byte>, body: seq<byte>, r: nat)
    requires 1 + |e| <= r <= 1 + |e| + |body|
    ensures var b := ([header] + e + body)[..r]; var part := body[..r - 1 - |e|];
      b[0] == header && b[1..] == e + part && b[1 + |e|..] == part
  {
  }

  /** Where topic length, topic and identifier sit behind a fixed header of `i` bytes. */
  lemma BodyLayout(b: seq<byte>, i: nat, topic: seq<byte>, qos: nat, id: nat, part: seq<byte>)
    requires i <= |b| && b[i..] == PublishHead(topic, qos, id) + part
    requires |topic| < 65536 && id < 65536
    ensures var j := i + 2 + |topic|;
      && |b| == j + |IdField(qos, id)| + |part|
      && Word(b[i], b[i + 1]) == |topic|
      && b[i + 2..j] == topic
      && (qos > 0 ==> Word(b[j], b[j + 1]) == id)
  {
    hide PublishHead, Word, IdField;
    var j := 2 + |topic|;
    HeadLayout(topic, qos, id, part);
    Shifted(b, i, 0);
    Shifted(b, i, 1);
    assert b[i + 2..i + j] == b[i..][2..j];
    if qos > 0 {
      Shifted(b, i, j);
      Shifted(b, i, j + 1);
    }
  }

  lemma HeadLayout(topic: seq<byte>, qos: nat, id: nat, part: seq<byte>)
    requires |topic| < 65536 && id < 65536
    ensures var s, j := PublishHead(topic, qos, id) + part, 2 + |topic|;
      && |s| == j + |IdField(qos, id)| + |part| && |IdField(qos, id)| == (if qos > 0 then 2 else 0)
      && Word(s[0], s[1]) == |topic| && s[2..j] == topic
      && (qos > 0 ==> Word(s[j], s[j + 1]) == id)
  {
    hide Word;
    WordU16(|topic|);
    WordU16(id);
    var s, j := PublishHead(topic, qos, id) + part, 2 + |topic|;
    assert s[0] == U16(|topic|)[0] && s[1] == U16(|topic|)[1];
    assert qos > 0 ==> s[j] == U16(id)[0] && s[j + 1] == U16(id)[1];
  }

  lemma Shifted(b: seq<byte>, i: nat, k: nat)
    requires i + k < |b|
    ensures b[i + k] == b[i..][k]
  {
  }

  /** The readers on a fixed header of `i` bytes followed by topic, identifier and `part` of the payload. */
  lemma BodyReads(b: seq<byte>, i: nat, topic: seq<byte>, qos: nat, id: nat, part: seq<byte>)
    requires b != [] && FixedLen(b) == i && b[i..] == PublishHead(topic, qos, id) + part
    requires TypeOf(b[0]) == PUBLISH && QosOf(b[0]) == qos
    requires 0 < |topic| < 65536 && id < 65536 && TotalLen(b) >= |b|
    ensures var h := i + 2 + |topic| + (if qos > 0 then 2 else 0);
      && |b| == h + |part|
      && TopicOf(b) == Some(topic)
      && DataOf(b) == (if part == [] then None else Some((h, |part|)))
      && IdOf(b) == (if qos > 0 then id else 0)
  {
    BodyLayout(b, i, topic, qos, id, part);
  }

  /** Every reader applied to a received PUBLISH, or to any part of it that holds the variable
      header, returns what was encoded. An empty payload reads as length 0. */
  lemma PublishReads(header: byte, topic: seq<byte>, id: nat, payload: seq<byte>, r: nat)
    requires TypeOf(header) == PUBLISH && 0 < |topic| < 65536 && id < 65536
    requires var qos := QosOf(header);
      var p := Packet(header, PublishHead(topic, qos, id) + payload);
      |p| - |payload| <= r <= |p|
    ensures var qos := QosOf(header);
      var p := Packet(header, PublishHead(topic, qos, id) + payload);
      var b := p[..r]; var h := |p| - |payload|;
      && h == 1 + |EncodeLen(|PublishHead(topic, qos, id) + payload|)| + 2 + |topic| + (if qos > 0 then 2 else 0)
      && p[h..] == payload && b[0] == header
      && TotalLen(b) == |p|
      && TopicOf(b) == Some(topic)
      && DataOf(b) == (if r == h then None else Some((h, r - h)))
      && IdOf(b) == (if qos > 0 then id else 0)
  {
    hide TopicOf, DataOf, IdOf, TotalLen, FixedLen, EncodeLen;
    var qos := QosOf(header);
    var head := PublishHead(topic, qos, id);
    var body := head + payload;
    var p := Packet(header, body);
    var i := 1 + |EncodeLen(|body|)|;
    var h := i + |head|;
    var part := payload[..r - h];
    PacketReads(header, body, r);
    assert body[..r - i] == head + part;
    BodyReads(p[..r], i, topic, qos, id, part);
    assert p[h..] == payload;
  }

  /** The identifier of an acknowledgement is read back as it was written. */
  lemma AckReads(mtype: nat, qos: nat, id: nat)
    requires mtype in {PUBACK, PUBREC, PUBREL, PUBCOMP} && qos < 3 && id < 65536
    ensures var p := AckPacket(mtype, qos, id);
      |p| == 4 && TotalLen(p) == 4 && IdOf(p) == id && TypeOf(p[0]) == mtype && QosOf(p[0]) == qos
  {
    var p := AckPacket(mtype, qos, id);
    HeaderFields(mtype, 0, qos, 0);
    AckBodyReads(p, id);
  }

  lemma AckBodyReads(p: seq<byte>, id: nat)
    requires p != [] && p == Packet(p[0], U16(id)) && id < 65536
    requires TypeOf(p[0]) in {PUBACK, PUBREC, PUBREL, PUBCOMP}
    ensures |p| == 4 && TotalLen(p) == 4 && IdOf(p) == id
  {
    PacketReads(p[0], U16(id), 4);
    assert p[..4] == p;
    assert p[1] == 2 && p[2] == U16(id)[0] && p[3] == U16(id)[1];
    assert Word(p[2], p[3]) == id;
  }

  /** No reader but the DUP accessor looks at the DUP bit. */
  lemma ReadersIgnoreDup(p: seq<byte>, d: seq<byte>)
    requires p != [] && d != [] && d[1..] == p[1..]
    requires TypeOf(d[0]) == TypeOf(p[0]) && QosOf(d[0]) == QosOf(p[0])
    ensures TotalLen(d) == TotalLen(p) && TopicOf(d) == TopicOf(p) && DataOf(d) == DataOf(p) && IdOf(d) == IdOf(p)
  {
    assert |d| == |p| && forall k :: 1 <= k < |p| ==> d[k] == d[1..][k - 1] == p[k];
    var i := FixedLen(p);
    if i + 2 < |p| {
      var n := Word(p[i], p[i + 1]);
      if i + 2 + n <= |p| { assert d[i + 2..i + 2 + n] == p[i + 2..i + 2 + n]; }
    }
  }

  /** Setting DUP in a stored PUBLISH changes nothing any other reader sees: section 3.3.1.1 of MQTT 3.1.1. */
  lemma DupReads(p: seq<byte>)
    requires p != [] && TypeOf(p[0]) == PUBLISH
    ensures var d := p[0 := WithDup(p[0])];
      && DupOf(d[0]) == 1
      && TypeOf(d[0]) == TypeOf(p[0]) && QosOf(d[0]) == QosOf(p[0]) && RetainOf(d[0]) == RetainOf(p[0])
      && TotalLen(d) == TotalLen(p) && TopicOf(d) == TopicOf(p) && DataOf(d) == DataOf(p) && IdOf(d) == IdOf(p)
      && d[1..] == p[1..]
  {
    var d := p[0 := WithDup(p[0])];
    DupKeepsFields(p[0]);
    ReadersIgnoreDup(p, d);
  }

  lemma DupKeepsFields(h: byte)
    ensures var d := WithDup(h);
      DupOf(d) == 1 && TypeOf(d) == TypeOf(h) && QosOf(d) == QosOf(h) && RetainOf(d) == RetainOf(h)
  {
    HeaderOfFields(h);
    HeaderFields(TypeOf(h), DupOf(h), QosOf(h), RetainOf(h));
    HeaderFields(TypeOf(h), 1, QosOf(h), RetainOf(h));
  }

  lemma DupPacket(qos: nat, retain: nat, topic: seq<byte>, id: nat, payload: seq<byte>)
    requires qos < 3 && retain < 2
    ensures var p := PublishPacket(0, qos, retain, topic, id, payload);
      && DupOf(p[0]) == 0
      && p[0 := WithDup(p[0])] == PublishPacket(1, qos, retain, topic, id, payload)
  {
    HeaderFields(PUBLISH, 0, qos, retain);
  }
}
