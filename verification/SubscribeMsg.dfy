/** SUBSCRIBE of MQTT 3.1.1, section 3.8: a list of filters with the QoS asked for. */
module SubscribeMsg {
  import opened Bytes
  import opened FixedHeader
  import opened Wire
  import opened MqttMsg

  datatype Topic = Topic(filter: seq<byte>, qos: nat)

  // ---- layout ------------------------------------------------------------------------------------

  function TopicBytes(t: Topic): seq<byte> {
    Str16(t.filter) + [t.qos % 256]
  }

  function TopicsBytes(topics: seq<Topic>): seq<byte> {
    if topics == [] then [] else TopicsBytes(topics[..|topics| - 1]) + TopicBytes(topics[|topics| - 1])
  }

  function SubscribePacket(id: nat, topics: seq<Topic>): seq<byte> {
    Packet(Header(SUBSCRIBE, 0, 1, 0), U16(id) + TopicsBytes(topics))
  }

  // ---- a decoder, from the standard ----------------------------------------------------------------

  /** Filters are at least one byte long, and the upper six bits of the QoS byte are reserved. */
  function DecodeTopics(s: seq<byte>): Option<seq<Topic>> {
    if s == [] then Some([])
    else
      var f := TakeStr16(s);
      if f.None? || f.value.0 == [] || f.value.1 == [] || f.value.1[0] > 2 then None
      else
        var rest := DecodeTopics(f.value.1[1..]);
        if rest.None? then None else Some([Topic(f.value.0, f.value.1[0])] + rest.value)
  }

  /** At least one filter must be there. */
  function DecodeSubscribe(p: seq<byte>): Option<(nat, seq<Topic>)> {
    if p == [] || p[0] != Header(SUBSCRIBE, 0, 1, 0) || TotalLen(p) != |p| || |p| < FixedLen(p) + 2 then None
    else
      var b := p[FixedLen(p)..];
      var topics := DecodeTopics(b[2..]);
      if topics.None? || topics.value == [] then None else Some((Word(b[0], b[1]), topics.value))
  }

  predicate Proper(topics: seq<Topic>) {
    forall i :: 0 <= i < |topics| ==> 0 < |topics[i].filter| < 65536
  }

  predicate QosProper(topics: seq<Topic>) {
    forall i :: 0 <= i < |topics| ==> topics[i].qos < 3
  }

  lemma {:induction false} TopicsFirst(topics: seq<Topic>)
    requires topics != []
    ensures TopicsBytes(topics) == TopicBytes(topics[0]) + TopicsBytes(topics[1..])
  {
    hide TopicBytes;
    var last := topics[|topics| - 1];
    if |topics| > 1 {
      var front := topics[..|topics| - 1];
      TopicsFirst(front);
      assert front[1..] == topics[1..][..|topics| - 2];
      assert TopicsBytes(topics) == TopicsBytes(front) + TopicBytes(last);
      assert TopicsBytes(topics[1..]) == TopicsBytes(front[1..]) + TopicBytes(last);
    } else {
      assert topics[..0] == [] && topics[1..] == [];
    }
  }

  lemma TopicReads(t: Topic, rest: seq<byte>)
    requires 0 < |t.filter| < 65536
    ensures DecodeTopics(TopicBytes(t) + rest) == if t.qos % 256 > 2 || DecodeTopics(rest).None? then None
      else Some([Topic(t.filter, t.qos % 256)] + DecodeTopics(rest).value)
  {
    hide TakeStr16, Str16;
    var tail := [t.qos % 256] + rest;
    Str16RoundTrip(t.filter, tail);
    assert TopicBytes(t) + rest == Str16(t.filter) + tail;
    assert tail[1..] == rest && tail[0] == t.qos % 256;
  }

  /** The list comes back exactly if every QoS is one there is. */
  lemma {:induction false} TopicsRead(topics: seq<Topic>)
    requires Proper(topics)
    ensures DecodeTopics(TopicsBytes(topics)) == Some(topics) <==> QosProper(topics)
    decreases |topics|
  {
    if topics != [] {
      TopicsRead(topics[1..]);
      FirstRead(topics[0], topics[1..]);
      assert topics == [topics[0]] + topics[1..];
    }
  }

  lemma FirstRead(t: Topic, rest: seq<Topic>)
    requires 0 < |t.filter| < 65536
    requires DecodeTopics(TopicsBytes(rest)) == Some(rest) <==> QosProper(rest)
    ensures DecodeTopics(TopicsBytes([t] + rest)) == Some([t] + rest) <==> QosProper([t] + rest)
  {
    hide TopicBytes, TopicsBytes, DecodeTopics, QosProper;
    var all := [t] + rest;
    assert all[1..] == rest && all[0] == t;
    TopicsFirst(all);
    TopicReads(t, TopicsBytes(rest));
    QosFirst(t, rest);
    var q := DecodeTopics(TopicsBytes(rest));
    if q.Some? { SameTopics(Topic(t.filter, t.qos % 256), q.value, t, rest); }
  }

  lemma SameTopics(a: Topic, x: seq<Topic>, b: Topic, y: seq<Topic>)
    ensures [a] + x == [b] + y <==> a == b && x == y
  {
    assert ([a] + x)[0] == a && ([b] + y)[0] == b && ([a] + x)[1..] == x && ([b] + y)[1..] == y;
  }

  lemma QosFirst(t: Topic, rest: seq<Topic>)
    ensures QosProper([t] + rest) <==> t.qos < 3 && QosProper(rest)
  {
    var all := [t] + rest;
    assert all[0] == t && forall i :: 0 <= i < |rest| ==> rest[i] == all[i + 1];
    assert forall i :: 0 < i < |all| ==> all[i] == rest[i - 1];
  }

  lemma SubscribeReads(id: nat, topics: seq<Topic>)
    requires Proper(topics) && id < 65536
    ensures DecodeSubscribe(SubscribePacket(id, topics)) == Some((id, topics)) <==> topics != [] && QosProper(topics)
  {
    hide DecodeTopics, FixedLen, TotalLen, EncodeLen, TopicsBytes;
    var body := U16(id) + TopicsBytes(topics);
    var p := SubscribePacket(id, topics);
    PacketReads(Header(SUBSCRIBE, 0, 1, 0), body, |p|);
    assert p[..|p|] == p && body[..|body|] == body;
    assert body[2..] == TopicsBytes(topics);
    WordU16(id);
    TopicsRead(topics);
  }

  // ---- the builder -----------------------------------------------------------------------------------

  predicate AllNamed(topics: seq<Topic>) {
    forall i :: 0 <= i < |topics| ==> topics[i].filter != []
  }

  predicate Buildable(size: nat, topics: seq<Topic>, pending: nat)
    requires pending == 0 || pending >= MAX_FIXED_HEADER
  {
    && AllNamed(topics)
    && MAX_FIXED_HEADER + 2 + |TopicsBytes(topics)| <= size
    && Announced(2 + |TopicsBytes(topics)|, pending) < REMAINING_LIMIT
  }

  /** `mqtt_msg_subscribe` */
  method Subscribe(c: Connection, topics: seq<Topic>, drawn: nat) returns (id: nat)
    requires c.Valid() && drawn > 0
    modifies c`start, c`length, c`fragOffset, c.buffer
    ensures c.Valid()
    ensures var body := U16(drawn) + TopicsBytes(topics);
      if Buildable(c.buffer.Length, topics, c.fragTotal) then
        && id == drawn
        && c.Message() == Announcing(Header(SUBSCRIBE, 0, 1, 0), Announced(|body|, c.fragTotal), body)
        && (c.Message() == SubscribePacket(drawn, topics) <==> c.fragTotal == 0 || c.fragTotal == MAX_FIXED_HEADER + |body|)
      else c.length == 0
  {
    hide TopicsBytes, Announcing, Packet, Header;
    ghost var body := U16(drawn) + TopicsBytes(topics);
    HeaderChoice(Header(SUBSCRIBE, 0, 1, 0), body, Announced(|body|, c.fragTotal));
    c.SetHeaderSize();
    id := c.AppendId(0, drawn);
    if id == 0 {
      c.Fail();
      return;
    }
    var ok := AppendTopics(c, topics, U16(id));
    if !ok {
      c.Fail();
      return;
    }
    c.Finish(SUBSCRIBE, 0, 1, 0);
  }

  method AppendTopics(c: Connection, topics: seq<Topic>, ghost head: seq<byte>) returns (ok: bool)
    requires c.Building() && c.Body() == head
    modifies c`length, c.buffer
    ensures c.Building()
    ensures ok <==> AllNamed(topics) && MAX_FIXED_HEADER + |head| + |TopicsBytes(topics)| <= c.buffer.Length
    ensures ok ==> c.Body() == head + TopicsBytes(topics)
  {
    hide TopicBytes, TopicsBytes;
    NoTopics(topics, head);
    for k := 0 to |topics|
      invariant c.Building() && c.Body() == head + TopicsBytes(topics[..k])
      invariant AllNamed(topics[..k])
    {
      TopicsNext(topics, k);
      ok := AppendTopic(c, topics[k]);
      if !ok { return; }
      Regroup(head, TopicsBytes(topics[..k]), TopicBytes(topics[k]));
    }
    assert topics[..|topics|] == topics;
    ok := true;
  }

  lemma NoTopics(topics: seq<Topic>, head: seq<byte>)
    ensures head + TopicsBytes(topics[..0]) == head
  {
  }

  lemma Regroup(a: seq<byte>, b: seq<byte>, c: seq<byte>)
    ensures a + b + c == a + (b + c)
  {
  }

  lemma TopicsNext(topics: seq<Topic>, k: nat)
    requires k < |topics|
    ensures TopicsBytes(topics[..k + 1]) == TopicsBytes(topics[..k]) + TopicBytes(topics[k])
    ensures |TopicsBytes(topics[..k + 1])| <= |TopicsBytes(topics)|
  {
    assert topics[..k + 1][..k] == topics[..k];
    TopicsGrow(topics, k + 1);
  }

  lemma {:induction false} TopicsGrow(topics: seq<Topic>, k: nat)
    requires k <= |topics|
    ensures |TopicsBytes(topics[..k])| <= |TopicsBytes(topics)|
  {
    if k < |topics| {
      TopicsGrow(topics[..|topics| - 1], k);
      assert topics[..|topics| - 1][..k] == topics[..k];
    } else {
      assert topics[..k] == topics;
    }
  }

  method AppendTopic(c: Connection, t: Topic) returns (ok: bool)
    requires c.Building()
    modifies c`length, c.buffer
    ensures c.Building()
    ensures ok <==> t.filter != [] && old(c.length) + |TopicBytes(t)| <= c.buffer.Length
    ensures ok ==> c.Body() == old(c.Body()) + TopicBytes(t)
  {
    if t.filter == [] { return false; }
    var r := c.AppendString(t.filter);
    if r < 0 || c.length + 1 > c.buffer.Length { return false; }
    ghost var was := c.Body();
    c.Append([t.qos % 256]);
    assert old(c.Body()) + Str16(t.filter) + [t.qos % 256] == old(c.Body()) + TopicBytes(t);
    ok := true;
  }
}
