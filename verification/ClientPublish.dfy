/** Publishing: building the packet, storing it, and sending it in pieces no longer than the buffer. */
module ClientPublish {
  import opened Bytes
  import opened FixedHeader
  import opened Wire
  import opened MqttMsg
  import opened OutboxSpec
  import Outbox
  import Transport

  /** How a call ends. `Strayed`: the program has begun to copy from outside the payload, and what comes of that
      is not said. */
  datatype Ending = Done | Refused | Strayed

  /** The message fits the buffer and the fragment offset left over from an earlier one reaches past its end: the
      send loop then takes more to be left than there ever was, and reads on from in front of the payload. */
  predicate Strays(size: nat, dataStart: nat, payload: seq<byte>, offsetBefore: int) {
    dataStart + |payload| <= size && offsetBefore > dataStart + |payload|
  }

  /** What the send loop adds behind the packet. A fragment offset left over from an earlier message that
      reaches past the payload's start makes the loop believe that that much is still to be sent. */
  function Resent(size: nat, dataStart: nat, payload: seq<byte>, offsetBefore: int): seq<byte> {
    if dataStart + |payload| > size || !(dataStart < offsetBefore <= dataStart + |payload|) then []
    else payload[|payload| - (offsetBefore - dataStart)..]
  }

  /** Storing a null payload while the fragment total of another message is pending: the program takes the rest of
      that message to be behind the null pointer. */
  predicate StraysInStore(stored: bool, data: Option<seq<byte>>, dataStart: nat, pending: nat, offsetBefore: int) {
    stored && data.None? && pending != 0 && offsetBefore != dataStart
  }

  /** `mqtt_client_enqueue_publish`: build, and store when the message must survive a lost connection. */
  method EnqueuePublish(m: Connection, o: Outbox.Outbox, topic: seq<byte>, data: Option<seq<byte>>, len: nat,
                        qos: nat, retain: nat, store: bool, drawn: nat, now: int, ghost serial: nat)
    returns (id: int, strayed: bool)
    requires m.Valid() && o.Valid()
    requires qos < 3 && retain < 2 && 0 < drawn < 65536 && (data.Some? ==> len == |data.value|)
    modifies m, m.buffer, o, o.nodes
    ensures m.Valid() && o.Valid()
    ensures forall k :: 0 <= k < |o.nodes| ==> o.nodes[k] in old(o.nodes) || fresh(o.nodes[k])
    ensures !Buildable(m.buffer.Length, topic, data, len, qos, old(m.fragTotal)) ==>
      && id == -1 && !strayed && o.items == old(o.items)
      && m.fragTotal == TotalAfter(m.buffer.Length, topic, data, qos, old(m.fragTotal))
    ensures Buildable(m.buffer.Length, topic, data, len, qos, old(m.fragTotal)) ==>
      && id == (if qos > 0 then drawn else 0) && m.length > 0
      && var built := BuiltPublish(qos, retain, topic, id, data, old(m.fragTotal));
         && m.Holds(built, Payload(data), DataStart(topic, qos), old(m.fragOffset))
         && strayed == StraysInStore(qos > 0 || store, data, DataStart(topic, qos), old(m.fragTotal), old(m.fragOffset))
         && (!strayed ==>
              && m.fragTotal == (if qos > 0 || store then 0 else TotalAfter(m.buffer.Length, topic, data, qos, old(m.fragTotal)))
              && o.items == old(o.items) + if qos > 0 || store then [Item(serial, id, PUBLISH, qos, now, Queued, built)] else [])
    // A call that finds no fragment total pending leaves one exactly if the payload does not fit and the message is
    // not stored, be it that it need not be or that its length has no encoding.
    ensures old(m.fragTotal) == 0 ==>
      (m.fragTotal != 0 <==>
        && Spills(m.buffer.Length, topic, data, qos)
        && (!(qos > 0 || store) || !Buildable(m.buffer.Length, topic, data, len, qos, 0)))
  {
    hide BuiltPublish, Connection.Holds, Outbox.Outbox.Linked, SizeOf;
    var msgId := m.Publish(topic, data, len, qos, retain, drawn);
    if m.length == 0 {
      return -1, false;
    }
    strayed := false;
    if qos > 0 || store {
      BuiltStarts(qos, retain, topic, msgId, data, old(m.fragTotal));
      strayed := Store(m, o, Payload(data), msgId, qos, now, serial,
                       BuiltPublish(qos, retain, topic, msgId, data, old(m.fragTotal)), DataStart(topic, qos), old(m.fragOffset));
    }
    id := msgId;
  }

  lemma BuiltStarts(qos: nat, retain: nat, topic: seq<byte>, id: nat, data: Option<seq<byte>>, pending: nat)
    requires qos < 3 && retain < 2 && (pending == 0 || pending >= MAX_FIXED_HEADER)
    ensures var p := BuiltPublish(qos, retain, topic, id, data, pending); p != [] && TypeOf(p[0]) == PUBLISH
  {
    HeaderFields(PUBLISH, 0, qos, retain);
  }

  /** Copies the outbound message and the payload bytes it does not hold into the outbox. */
  method Store(m: Connection, o: Outbox.Outbox, data: seq<byte>, id: nat, qos: nat, now: int, ghost serial: nat,
               ghost built: seq<byte>, ghost dataStart: nat, ghost offsetBefore: int) returns (strayed: bool)
    requires m.Valid() && o.Valid() && m.length > 0
    requires m.Holds(built, data, dataStart, offsetBefore)
    requires data != [] ==> m.fragTotal == if dataStart + |data| > m.buffer.Length then dataStart + |data| else 0
    requires built != [] && TypeOf(built[0]) == PUBLISH
    modifies m`fragTotal, o, o.nodes
    ensures m.Valid() && o.Valid()
    ensures m.Holds(built, data, dataStart, offsetBefore)
    ensures strayed == (data == [] && old(m.fragTotal) != 0 && offsetBefore != dataStart)
    ensures if strayed then o.nodes == old(o.nodes) && m.fragTotal != 0 else
      && m.fragTotal == 0
      && |o.nodes| == |old(o.nodes)| + 1 && o.nodes[..|old(o.nodes)|] == old(o.nodes) && fresh(o.nodes[|old(o.nodes)|])
      && o.items == old(o.items) + [Item(serial, id, PUBLISH, qos, now, Queued, built)]
  {
    hide Outbox.Outbox.Linked, SizeOf;
    HeldParts(m, data, built, dataStart, offsetBefore);
    var mtype := TypeOf(m.buffer[m.start]);
    strayed := false;
    if m.fragTotal == 0 {
      var _ := o.Enqueue(m.buffer[m.start..m.start + m.length], [], id, mtype, qos, now, serial);
    } else {
      var firstFragment := m.length - m.fragOffset;
      if !(0 <= firstFragment <= |data|) {
        return true;
      }
      var _ := o.Enqueue(m.buffer[m.start..m.start + m.length], data[firstFragment..], id, mtype, qos, now, serial);
      m.fragTotal := 0;
    }
  }

  /** The message and the payload bytes behind the first fragment are what was built. */
  lemma HeldParts(m: Connection, data: seq<byte>, built: seq<byte>, dataStart: nat, offsetBefore: int)
    requires m.Valid() && m.length > 0 && m.Holds(built, data, dataStart, offsetBefore) && built != []
    requires data != [] ==> m.fragTotal == if dataStart + |data| > m.buffer.Length then dataStart + |data| else 0
    ensures m.buffer[m.start] == built[0]
    ensures m.fragTotal == 0 ==> m.Message() + [] == built
    ensures data != [] && m.fragTotal != 0 ==> 0 <= m.length - m.fragOffset <= |data|
    ensures data == [] ==> (m.length - m.fragOffset == 0 <==> offsetBefore == dataStart)
    ensures m.fragTotal != 0 && 0 <= m.length - m.fragOffset <= |data| ==> m.Message() + data[m.length - m.fragOffset..] == built
  {
    assert m.Message()[0] == m.buffer[m.start];
  }

  /** Payload bytes from index `i` on; an index past the end leaves none. */
  function Ahead(payload: seq<byte>, i: int): seq<byte> {
    if 0 <= i <= |payload| then payload[i..] else []
  }

  /** The fragment loop of `esp_mqtt_client_publish`. */
  method SendFragments(m: Connection, t: Transport.Connection, payload: seq<byte>,
                       ghost built: seq<byte>, ghost dataStart: nat, ghost offsetBefore: int)
    returns (end: Ending)
    requires m.Valid() && m.length > 0 && m.Holds(built, payload, dataStart, offsetBefore)
    modifies m, m.buffer, t`sent, t`refusals
    ensures m.Valid() && m.fragTotal == 0
    ensures t.refusals >= old(t.refusals) && (end == Refused <==> t.refusals > old(t.refusals))
    ensures end != Refused ==> (end == Strayed <==> Strays(m.buffer.Length, dataStart, payload, offsetBefore)) && m.fragOffset == 0
    ensures var all := built + Resent(m.buffer.Length, dataStart, payload, offsetBefore);
      if end == Refused then old(t.sent) <= t.sent < old(t.sent) + all else t.sent == old(t.sent) + all
  {
    FirstPiece(m, payload, built, dataStart, offsetBefore);
    end := SendLoop(m, t, payload, t.sent + (built + Resent(m.buffer.Length, dataStart, payload, offsetBefore)));
  }

  /** `cur` payload bytes are behind the loop and the outbound message is the next thing to write on the way to `goal`. */
  ghost predicate Pending(m: Connection, t: Transport.Connection, payload: seq<byte>, cur: int, goal: seq<byte>)
    reads m, m.buffer, t
  {
    && m.Valid() && m.length > 0
    && t.sent + (m.Message() + Ahead(payload, cur + m.length - m.fragOffset)) == goal
  }

  /** The loop itself: `goal` is what the peer will have been handed at the end, or where the program strays. */
  method SendLoop(m: Connection, t: Transport.Connection, payload: seq<byte>, ghost goal: seq<byte>) returns (end: Ending)
    requires Pending(m, t, payload, 0, goal)
    modifies m, m.buffer, t`sent, t`refusals
    ensures m.Valid() && m.fragTotal == 0 && (end != Refused ==> m.fragOffset == 0)
    ensures end != Refused ==> (end == Strayed <==> old(m.length) < old(m.fragOffset))
    ensures if end == Refused then old(t.sent) <= t.sent < goal else t.sent == goal
    ensures t.refusals >= old(t.refusals) && (end == Refused <==> t.refusals > old(t.refusals))
  {
    var remaining: int, cur := |payload|, 0;
    var sending := true;
    ghost var first := true;
    end := Done;
    while sending
      invariant old(t.sent) <= t.sent && remaining + cur == |payload| && t.refusals == old(t.refusals) && end == Done
      invariant first ==> m.length == old(m.length) && m.fragOffset == old(m.fragOffset) && cur == 0
      invariant !first ==> old(m.length) >= old(m.fragOffset) && cur >= 0
      invariant sending ==> Pending(m, t, payload, cur, goal)
      invariant sending && !first ==> m.fragOffset == 0 && m.length <= remaining
      invariant !sending ==> m.Valid() && t.sent == goal && m.fragOffset == 0 && m.fragTotal == 0 && !first
      decreases sending, first, remaining
    {
      end, cur, remaining := Turn(m, t, payload, cur, remaining, goal);
      if end != Done {
        return;
      }
      sending, first := remaining > 0, false;
    }
  }

  /** One turn: write the outbound message, account for the payload bytes in it, load the next piece. */
  method Turn(m: Connection, t: Transport.Connection, payload: seq<byte>, cur: int, remaining: int, ghost goal: seq<byte>)
    returns (end: Ending, cur': int, remaining': int)
    requires Pending(m, t, payload, cur, goal) && remaining + cur == |payload|
    modifies m, m.buffer, t`sent, t`refusals
    ensures m.Valid() && old(t.sent) <= t.sent && m.fragTotal == 0
    ensures remaining' + cur' == |payload|
    ensures t.refusals >= old(t.refusals) && (end == Refused <==> t.refusals > old(t.refusals))
    ensures if end == Refused then t.sent < goal else
      && m.fragOffset == 0 && cur' == cur + old(m.length - m.fragOffset)
      && (end == Strayed <==> cur' < 0)
      && (end == Done && remaining' > 0 ==> Pending(m, t, payload, cur', goal) && m.length <= remaining')
      && (end == Strayed || remaining' <= 0 ==> t.sent == goal)
  {
    hide Ahead;
    AheadDone(payload, cur + m.length - m.fragOffset);
    cur', remaining' := cur, remaining;
    var ok := WritePiece(m, t, Ahead(payload, cur + m.length - m.fragOffset), goal);
    if !ok {
      m.fragTotal := 0;
      return Refused, cur', remaining';
    }
    var dataSent := m.length - m.fragOffset;
    m.fragOffset, m.fragTotal := 0, 0;
    remaining' := remaining - dataSent;
    cur' := cur + dataSent;
    end := Done;
    if remaining' > 0 {
      if cur' < 0 {
        return Strayed, cur', remaining';
      }
      LoadFragment(m, payload, cur', remaining');
    }
  }

  lemma AheadDone(payload: seq<byte>, i: int)
    ensures i >= |payload| || i < 0 ==> Ahead(payload, i) == []
  {
  }

  /** The message as built, and what the first turn of the loop takes to be left. */
  lemma FirstPiece(m: Connection, payload: seq<byte>, built: seq<byte>, dataStart: nat, offsetBefore: int)
    requires m.Valid() && m.Holds(built, payload, dataStart, offsetBefore)
    ensures m.length < m.fragOffset <==> Strays(m.buffer.Length, dataStart, payload, offsetBefore)
    ensures m.Message() + Ahead(payload, m.length - m.fragOffset)
         == built + Resent(m.buffer.Length, dataStart, payload, offsetBefore)
  {
  }

  /** The next piece of the payload moves to the start of the buffer. */
  method LoadFragment(m: Connection, payload: seq<byte>, cur: nat, remaining: nat)
    requires m.Valid() && 0 < remaining && cur + remaining == |payload| && m.fragOffset == 0
    modifies m`start, m`length, m.buffer
    ensures m.Valid() && 0 < m.length <= remaining
    ensures m.Message() + Ahead(payload, cur + m.length) == Ahead(payload, cur)
  {
    hide Ahead;
    var writeLen := if remaining > m.buffer.Length then m.buffer.Length else remaining;
    ghost var piece := payload[cur..cur + writeLen];
    CutPiece(payload, cur, cur + writeLen);
    forall i | 0 <= i < writeLen {
      m.buffer[i] := payload[cur + i];
    }
    m.start, m.length := 0, writeLen;
    assert m.buffer[0..writeLen] == piece;
  }

  lemma CutPiece(payload: seq<byte>, i: nat, j: nat)
    requires i <= j <= |payload|
    ensures payload[i..j] + Ahead(payload, j) == Ahead(payload, i)
  {
  }

  /** One write of the outbound message on the way to `goal`; `ahead` is still to come. */
  method WritePiece(m: Connection, t: Transport.Connection, ghost ahead: seq<byte>, ghost goal: seq<byte>)
    returns (ok: bool)
    requires m.Valid() && t.sent + (m.Message() + ahead) == goal
    modifies t`sent, t`refusals
    ensures old(t.sent) <= t.sent && t.refusals >= old(t.refusals) && (ok <==> t.refusals == old(t.refusals))
    ensures if ok then t.sent + ahead == goal else t.sent < goal
  {
    ghost var before, msg := t.sent, m.Message();
    ghost var k;
    ok, k := t.WriteAll(m.buffer[m.start..m.start + m.length]);
    if ok {
      assert msg[..k] == msg;
      assert before + msg + ahead == before + (msg + ahead);
    } else {
      assert before + msg[..k] == goal[..|before| + k];
    }
  }

  /** The send loop writes the packet and no more, and reads nothing but the payload, exactly when the message is
      fragmented or the fragment offset found on entry does not reach into the payload. */
  lemma SentExactly(size: nat, packet: seq<byte>, payload: seq<byte>, dataStart: nat, offsetBefore: int)
    ensures !Strays(size, dataStart, payload, offsetBefore) && packet + Resent(size, dataStart, payload, offsetBefore) == packet
       <==> dataStart + |payload| > size || offsetBefore <= dataStart
  {
    if Resent(size, dataStart, payload, offsetBefore) != [] {
      assert |packet + Resent(size, dataStart, payload, offsetBefore)| > |packet|;
    }
  }

  // ---- what earlier messages leave behind ----------------------------------------------------------

  /** Where such an offset comes from: a fragmented message that was stored and not sent. With a buffer of 64
      bytes, storing 100 bytes at QoS 1 under a 20-byte topic leaves offset 26. A QoS 0 publish under a 1-byte topic
      then sends the last 18 of 30 bytes twice, and with 5 bytes strays outside the payload. */
  method StaleOffset(t: Transport.Connection, topic: seq<byte>, long: seq<byte>, other: seq<byte>, payload: seq<byte>, drawn: nat)
    returns (end: Ending)
    requires |topic| == 20 && |long| == 100 && |other| == 1 && |payload| in {30, 5} && 0 < drawn < 65536
    modifies t`sent, t`refusals
    ensures end != Refused <==> t.refusals == old(t.refusals)
    ensures var packet := PublishPacket(0, 0, 0, other, 0, payload);
      && (end != Refused && |payload| == 30 ==> end == Done && t.sent == old(t.sent) + packet + payload[12..])
      && (end != Refused && |payload| == 5 ==> end == Strayed && t.sent == old(t.sent) + packet)
  {
    hide PublishPacket, Connection.Holds, BuiltPublish;
    var m, o := LeaveOffset(topic, long, drawn);
    var _, _ := EnqueuePublish(m, o, other, Some(payload), |payload|, 0, 0, false, drawn, 0, 1);
    BuiltIsPacket(0, 0, other, 0, Some(payload), 0);
    end := SendFragments(m, t, payload, PublishPacket(0, 0, 0, other, 0, payload), DataStart(other, 0), 26);
  }

  method LeaveOffset(topic: seq<byte>, long: seq<byte>, drawn: nat) returns (m: Connection, o: Outbox.Outbox)
    requires |topic| == 20 && |long| == 100 && 0 < drawn < 65536
    ensures m.Valid() && o.Valid() && m.buffer.Length == 64 && m.fragOffset == 26 && m.fragTotal == 0
    ensures fresh(m) && fresh(m.buffer) && fresh(o) && forall k :: 0 <= k < |o.nodes| ==> fresh(o.nodes[k])
  {
    hide Connection.Holds, BuiltPublish, Buildable, DataStart, PublishLen, TotalAfter, Spills, EncodeLen;
    m := new Connection(64);
    o := new Outbox.Outbox();
    BuiltLong(topic, drawn, long);
    var _, _ := EnqueuePublish(m, o, topic, Some(long), 100, 1, 0, true, drawn, 0, 0);
    OffsetLeft(m, BuiltPublish(1, 0, topic, drawn, Some(long), 0), long);
  }

  lemma BuiltLong(topic: seq<byte>, id: nat, long: seq<byte>)
    requires |topic| == 20 && |long| == 100
    ensures Buildable(64, topic, Some(long), 100, 1, 0) && DataStart(topic, 1) == 29
    ensures |BuiltPublish(1, 0, topic, id, Some(long), 0)| == 126
  {
    BuiltLength(1, 0, topic, id, long);
    EncodeLenSize(124);
  }

  lemma BuiltLength(qos: nat, retain: nat, topic: seq<byte>, id: nat, payload: seq<byte>)
    requires qos < 4 && retain < 2
    ensures var n := DataStart(topic, qos) - MAX_FIXED_HEADER + |payload|;
      |BuiltPublish(qos, retain, topic, id, Some(payload), 0)| == 1 + |EncodeLen(n)| + n
  {
    HeadLength(topic, qos, id);
    hide PublishHead, EncodeLen, Header;
  }

  lemma OffsetLeft(m: Connection, built: seq<byte>, long: seq<byte>)
    requires m.Valid() && m.buffer.Length == 64 && |long| == 100 && m.Holds(built, long, 29, 0)
    requires |built| == 126
    ensures m.fragOffset == 26
  {
  }

  /** Where a pending fragment total comes from: with a buffer of 64 bytes, enqueueing 100 bytes at QoS 0 under a 1-byte
      topic without storing them leaves 108, and the PUBREL built next is none. */
  method PendingTotal(topic: seq<byte>, payload: seq<byte>, drawn: nat) returns (m: Connection)
    requires |topic| == 1 && |payload| == 100 && 0 < drawn < 65536
    ensures m.Valid() && m.fragTotal == 108 && m.Message() != AckPacket(PUBREL, 1, 5)
  {
    m := new Connection(64);
    var o := new Outbox.Outbox();
    EncodeLenSize(103);
    var ret := Enqueue(m, o, 0, topic, Some(payload), 100, 0, 0, false, drawn, 0, 0);
    m.Acknowledge(PUBREL, 5, drawn);
  }

  /** `esp_mqtt_client_enqueue`: a message of QoS 0 that is not to be stored is built all the same. */
  method Enqueue(m: Connection, o: Outbox.Outbox, outboxLimit: nat, topic: seq<byte>, data: Option<seq<byte>>, len: nat,
                 qos: nat, retain: nat, store: bool, drawn: nat, now: int, ghost serial: nat) returns (ret: int)
    requires m.Valid() && o.Valid()
    requires qos < 3 && retain < 2 && 0 < drawn < 65536 && (data.Some? ==> len == |data.value|)
    modifies m, m.buffer, o, o.nodes
    ensures m.Valid() && o.Valid()
    ensures var full := outboxLimit > 0 && len + SizeOf(old(o.items)) > outboxLimit;
      var built := Buildable(m.buffer.Length, topic, data, len, qos, old(m.fragTotal));
      if full || !built then
        && ret == (if full then -2 else -1) && o.items == old(o.items)
        && m.fragTotal == if full then old(m.fragTotal) else TotalAfter(m.buffer.Length, topic, data, qos, old(m.fragTotal))
      else !StraysInStore(qos > 0 || store, data, DataStart(topic, qos), old(m.fragTotal), old(m.fragOffset)) ==>
        if qos > 0 || store then
          && ret == (if qos > 0 then drawn else 0) && m.fragTotal == 0
          && o.items == old(o.items) + [Item(serial, ret, PUBLISH, qos, now, Queued,
               BuiltPublish(qos, retain, topic, ret, data, old(m.fragTotal)))]
        else
          && ret == -1 && o.items == old(o.items)
          && m.fragTotal == TotalAfter(m.buffer.Length, topic, data, qos, old(m.fragTotal))
  {
    if outboxLimit > 0 {
      if len + o.size > outboxLimit {
        return -2;
      }
    }
    var strayed;
    ret, strayed := EnqueuePublish(m, o, topic, data, len, qos, retain, store, drawn, now, serial);
    if ret == 0 && !store {
      return -1;
    }
  }

  // ---- a whole publish -------------------------------------------------------------------------------

  /** What a call that builds its message does to outbox and connection. */
  twostate predicate Published(m: Connection, o: Outbox.Outbox, t: Transport.Connection, connected: bool, end: Ending,
                               qos: nat, strays: bool, all: seq<byte>, item: Item)
    reads o, t
  {
    && o.items == old(o.items) + (if qos > 0 then [item] else [])
    && t.refusals >= old(t.refusals) && (end == Refused <==> t.refusals > old(t.refusals))
    && (!connected ==> end == Done && t.sent == old(t.sent))
    && (connected && end != Refused ==> (end == Strayed <==> strays) && t.sent == old(t.sent) + all)
    && (connected && end == Refused ==> old(t.sent) <= t.sent < old(t.sent) + all)
  }

  /** `esp_mqtt_client_publish`; the answer is the message id, -1 or -2. A refused write means that the connection
      must be given up. */
  method Publish(m: Connection, o: Outbox.Outbox, t: Transport.Connection, connected: bool, outboxLimit: nat,
                 topic: seq<byte>, data: Option<seq<byte>>, len: nat, qos: nat, retain: nat,
                 drawn: nat, now: int, later: int, ghost serial: nat)
    returns (ret: int, end: Ending)
    requires m.Valid() && o.Valid()
    requires qos < 3 && retain < 2 && 0 < drawn < 65536 && (data.Some? ==> len == |data.value|)
    requires forall k :: 0 <= k < |o.items| ==> o.items[k].id != drawn
    modifies m, m.buffer, o, o.nodes, t`sent, t`refusals
    ensures m.Valid() && o.Valid()
    ensures var full := outboxLimit > 0 && qos > 0 && len + SizeOf(old(o.items)) > outboxLimit;
      var D, total, offset := DataStart(topic, qos), old(m.fragTotal), old(m.fragOffset);
      if full || !Buildable(m.buffer.Length, topic, data, len, qos, total) then
        && ret == (if full then -2 else -1) && end == Done && o.items == old(o.items) && t.sent == old(t.sent)
        && m.fragTotal == if full then total else TotalAfter(m.buffer.Length, topic, data, qos, total)
      else if StraysInStore(qos > 0, data, D, total, offset) then end == Strayed
      else
        var id := if qos > 0 then drawn else 0;
        var built := BuiltPublish(qos, retain, topic, id, data, total);
        && m.fragTotal == 0
        && (end != Strayed ==> ret == if end == Refused || (!connected && qos == 0) then -1 else id)
        && Published(m, o, t, connected, end, qos, Strays(m.buffer.Length, D, Payload(data), offset),
                     built + Resent(m.buffer.Length, D, Payload(data), offset),
                     if connected && end == Done then Item(serial, id, PUBLISH, qos, later, Transmitted, built)
                     else Item(serial, id, PUBLISH, qos, now, Queued, built))
  {
    if outboxLimit > 0 && qos > 0 {
      if len + o.size > outboxLimit {
        return -2, Done;
      }
    }
    ret, end := PublishWithin(m, o, t, connected, topic, data, len, qos, retain, drawn, now, later, serial);
  }

  /** The rest of the call, once the outbox is known to have room. */
  method PublishWithin(m: Connection, o: Outbox.Outbox, t: Transport.Connection, connected: bool,
                       topic: seq<byte>, data: Option<seq<byte>>, len: nat, qos: nat, retain: nat,
                       drawn: nat, now: int, later: int, ghost serial: nat)
    returns (ret: int, end: Ending)
    requires m.Valid() && o.Valid()
    requires qos < 3 && retain < 2 && 0 < drawn < 65536 && (data.Some? ==> len == |data.value|)
    requires forall k :: 0 <= k < |o.items| ==> o.items[k].id != drawn
    modifies m, m.buffer, o, o.nodes, t`sent, t`refusals
    ensures m.Valid() && o.Valid()
    ensures var D, total, offset := DataStart(topic, qos), old(m.fragTotal), old(m.fragOffset);
      if !Buildable(m.buffer.Length, topic, data, len, qos, total) then
        && ret == -1 && end == Done && o.items == old(o.items) && t.sent == old(t.sent)
        && m.fragTotal == TotalAfter(m.buffer.Length, topic, data, qos, total)
      else if StraysInStore(qos > 0, data, D, total, offset) then end == Strayed
      else
        var id := if qos > 0 then drawn else 0;
        var built := BuiltPublish(qos, retain, topic, id, data, total);
        && m.fragTotal == 0
        && (end != Strayed ==> ret == if end == Refused || (!connected && qos == 0) then -1 else id)
        && Published(m, o, t, connected, end, qos, Strays(m.buffer.Length, D, Payload(data), offset),
                     built + Resent(m.buffer.Length, D, Payload(data), offset),
                     if connected && end == Done then Item(serial, id, PUBLISH, qos, later, Transmitted, built)
                     else Item(serial, id, PUBLISH, qos, now, Queued, built))
  {
    hide BuiltPublish, Outbox.Outbox.Valid, Connection.Holds, Resent, Strays, IndexOfId, Buildable, TotalAfter;
    var id, strayed := EnqueuePublish(m, o, topic, data, len, qos, retain, false, drawn, now, serial);
    if id < 0 {
      return -1, Done;
    }
    if strayed {
      return id, Strayed;
    }
    if !connected {
      m.fragTotal := 0;
      return if qos > 0 then id else -1, Done;
    }
    ghost var built := BuiltPublish(qos, retain, topic, id, data, old(m.fragTotal));
    if qos > 0 { LastIndex(old(o.items), Item(serial, id, PUBLISH, qos, now, Queued, built)); }
    end := SendStored(m, o, t, Payload(data), qos, id, later, built, DataStart(topic, qos), old(m.fragOffset));
    assert end == Done && qos > 0 ==> o.items == old(o.items) + [Item(serial, id, PUBLISH, qos, later, Transmitted, built)];
    ret := if end == Refused then -1 else id;
  }

  /** From the send loop to the end of the call. */
  method SendStored(m: Connection, o: Outbox.Outbox, t: Transport.Connection, payload: seq<byte>, qos: nat, id: nat, later: int,
                    ghost built: seq<byte>, ghost dataStart: nat, ghost offsetBefore: int)
    returns (end: Ending)
    requires m.Valid() && m.length > 0 && m.Holds(built, payload, dataStart, offsetBefore) && o.Valid()
    requires qos > 0 ==> o.items != [] && IndexOfId(o.items, id) == |o.items| - 1
    modifies m, m.buffer, o, o.nodes, t`sent, t`refusals
    ensures m.Valid() && o.Valid() && m.fragTotal == 0
    ensures t.refusals >= old(t.refusals) && (end == Refused <==> t.refusals > old(t.refusals))
    ensures end != Refused ==> (end == Strayed <==> Strays(m.buffer.Length, dataStart, payload, offsetBefore))
    ensures var all := built + Resent(m.buffer.Length, dataStart, payload, offsetBefore);
      if end == Refused then old(t.sent) <= t.sent < old(t.sent) + all else t.sent == old(t.sent) + all
    ensures var i := |old(o.items)| - 1;
      o.items == if end == Done && qos > 0 then old(o.items)[i := old(o.items)[i].(tick := later, pending := Transmitted)] else old(o.items)
  {
    end := SendFragments(m, t, payload, built, dataStart, offsetBefore);
    if end == Done && qos > 0 {
      MarkSent(o, id, later);
    }
  }

  /** The tick is renewed after transmission, then the item counts as transmitted. */
  method MarkSent(o: Outbox.Outbox, id: nat, later: int)
    requires o.Valid() && o.items != [] && IndexOfId(o.items, id) == |o.items| - 1
    modifies o, o.nodes
    ensures o.Valid()
    ensures var i := |old(o.items)| - 1;
      o.items == old(o.items)[i := old(o.items)[i].(tick := later, pending := Transmitted)]
  {
    var _ := o.SetTick(id, later);
    assert IndexOfId(o.items, id) == |o.items| - 1;
    var _ := o.SetPending(id, Transmitted);
  }
}
