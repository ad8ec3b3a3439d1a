/** The resumable packet receiver: arbitrary short reads and timeouts, one buffer, a packet at a time. */
module Receiver {
  import opened Bytes
  import opened FixedHeader
  import opened Wire
  import opened Framing
  import MqttReaders
  import Transport

  /** The shortest input buffer the size correction for long messages can work in. */
  const MIN_BUFFER := 9

  function Min(a: nat, b: nat): nat { if a < b then a else b }

  /** How many bytes the length loop leaves buffered when it starts with `k` of the bytes `s`: it reads one
      byte at a time until it has six or the last one is below 128. Bytes running out stop it as well. */
  function LoopEnd(s: seq<byte>, k: nat): (e: nat)
    requires 1 <= k <= |s|
    ensures k <= e <= |s|
    decreases |s| - k
  {
    if k == |s| || k >= 6 || (k > 1 && s[k - 1] < 128) then k else LoopEnd(s, k + 1)
  }

  /** The loop is entered again on a packet whose header is long complete, and no byte left in the packet stops it. */
  predicate Trap(f: seq<byte>, k: nat) {
    && HeaderDone(f) && FixedLen(f) < k < |f| <= 5
    && forall j :: k - 1 <= j < |f| ==> f[j] >= 128
  }

  /** A PUBACK for the id 0x8080 of which the last byte is still to come. */
  lemma TrapExample()
    ensures var f := [0x40, 2, 0x80, 0x80]; Frame(f) && Trap(f, 3)
  {
  }

  /** The part of a PUBLISH the receiver asks to fit in the buffer; two bytes short of the variable header. */
  function Needed(f: seq<byte>): nat
    requires HeaderDone(f) && FixedLen(f) + 2 <= |f|
  {
    FixedLen(f) + Word(f[FixedLen(f)], f[FixedLen(f) + 1]) + if QosOf(f[0]) > 0 then 2 else 0
  }

  /** A message too long for the buffer is taken in parts if it is a PUBLISH whose `Needed` part fits. */
  predicate InParts(f: seq<byte>, size: nat) {
    && HeaderDone(f) && |f| > size >= MIN_BUFFER && FixedLen(f) <= 5
    && TypeOf(f[0]) == PUBLISH && Needed(f) <= size
  }

  /** Started inside the header, the loop stops right behind it. */
  lemma {:induction false} LoopEndHeader(f: seq<byte>, s: seq<byte>, k: nat)
    requires Frame(f) && f <= s && 1 <= k <= FixedLen(f) && (k == 1 || k < FixedLen(f))
    ensures LoopEnd(s, k) == FixedLen(f) && s[FixedLen(f) - 1] < 128
    decreases FixedLen(f) - k
  {
    var l := f[1..];
    LengthBytesHigh(l);
    assert forall i :: 1 <= i < FixedLen(f) - 1 ==> s[i] == f[i] == l[i - 1] >= 128;
    assert s[FixedLen(f) - 1] == f[FixedLen(f) - 1] < 128;
    if k + 1 < FixedLen(f) {
      LoopEndHeader(f, s, k + 1);
    }
  }

  /** Started inside the body it stays inside the packet unless it is trapped. */
  lemma {:induction false} LoopEndBody(f: seq<byte>, s: seq<byte>, k: nat)
    requires Frame(f) && f <= s && FixedLen(f) < k < |f| && !Trap(f, k)
    ensures LoopEnd(s, k) <= |f| && (LoopEnd(s, k) >= 6 || s[LoopEnd(s, k) - 1] < 128)
    decreases 6 - k
  {
    assert s[k - 1] == f[k - 1];
    if k < 6 && s[k - 1] >= 128 && k + 1 < |f| {
      LoopEndBody(f, s, k + 1);
    }
  }

  /** Trapped, it cannot stop before it has read past the end of the packet. */
  lemma {:induction false} LoopEndTrap(f: seq<byte>, s: seq<byte>, k: nat)
    requires HeaderDone(f) && f <= s && FixedLen(f) < k <= |f| <= 5
    requires forall j :: k - 1 <= j < |f| ==> f[j] >= 128
    ensures LoopEnd(s, k) > |f| || LoopEnd(s, k) == |s|
    decreases |f| - k
  {
    if k < |f| {
      LoopEndTrap(f, s, k + 1);
    } else if k < |s| {
      assert LoopEnd(s, k) == LoopEnd(s, k + 1);
    }
  }

  class Receiver {
    const inBuffer: array<byte>
    const t: Transport.Connection
    var readLen: nat
    var messageLength: nat
    /** Where in the incoming stream the current packet starts. */
    ghost var frameStart: nat
    /** The packets handed on so far. */
    var handed: seq<seq<byte>>

    /** The buffer holds precisely the bytes read since the last packet boundary. */
    ghost predicate Buffered()
      reads this, t, inBuffer
    {
      && t.Valid() && inBuffer.Length >= MIN_BUFFER && readLen <= inBuffer.Length
      && t.pos == frameStart + readLen
      && inBuffer[..readLen] == t.incoming[frameStart..t.pos]
    }

    /** Packet `f` is what the stream holds at the current boundary. */
    ghost predicate Receiving(f: seq<byte>)
      reads this, t
    {
      Frame(f) && frameStart <= |t.incoming| && f <= t.incoming[frameStart..]
    }

    /** What is buffered and what the packet says agree as far as both go. */
    lemma BufferedPacket(f: seq<byte>)
      requires Buffered() && Receiving(f)
      ensures forall k :: 0 <= k < readLen && k < |f| ==> inBuffer[k] == f[k]
      ensures readLen <= |f| ==> inBuffer[..readLen] == f[..readLen]
    {
      forall k | 0 <= k < readLen && k < |f|
        ensures inBuffer[k] == f[k]
      {
        assert inBuffer[k] == inBuffer[..readLen][k] == t.incoming[frameStart..t.pos][k] == t.incoming[frameStart..][k] == f[k];
      }
    }

    constructor (t: Transport.Connection, size: nat)
      requires t.Valid() && size >= MIN_BUFFER
      ensures this.t == t && fresh(inBuffer) && inBuffer.Length == size
      ensures Buffered() && readLen == 0 && frameStart == t.pos && handed == []
    {
      inBuffer := new byte[size](_ => 0);
      this.t := t;
      readLen, messageLength, frameStart, handed := 0, 0, t.pos, [];
    }

    /** One `esp_transport_read` into the buffer behind what is already there. */
    method Fill(n: nat) returns (got: int)
      requires Buffered() && readLen + n <= inBuffer.Length
      modifies this`readLen, t`pos, t`stalls, inBuffer
      ensures Buffered() && got <= n && t.stalls == old(t.stalls) + if got > 0 then 0 else 1
      ensures readLen == old(readLen) + (if got > 0 then got else 0)
    {
      var data;
      got, data := t.Read(n);
      if got > 0 {
        ghost var was := inBuffer[..readLen];
        forall k | 0 <= k < got {
          inBuffer[readLen + k] := data[k];
        }
        assert inBuffer[..readLen + got] == was + data;
        SliceSplit(t.incoming, frameStart, frameStart + readLen, t.pos);
        readLen := readLen + got;
      }
    }

    static lemma SliceOfPrefix(s: seq<byte>, at: nat, f: seq<byte>, i: nat, j: nat)
      requires at <= |s| && f <= s[at..] && i <= j <= |f|
      ensures f[i..j] == s[at + i..at + j]
    {
      assert forall k :: i <= k < j ==> f[k] == s[at..][k] == s[at + k];
    }

    static lemma SliceSplit(s: seq<byte>, i: nat, j: nat, k: nat)
      requires i <= j <= k <= |s|
      ensures s[i..k] == s[i..j] + s[j..k]
    {
    }

    /** `esp_mqtt_handle_transport_read_error` */
    static function ReadError(got: int, midMessage: bool): int {
      if got == 0 then if midMessage then -1 else 0 else -2
    }

    /** The first byte of a packet: read alone, and counted only once it has been checked. */
    method ReadFirst() returns (r: int)
      requires Buffered() && readLen == 0
      modifies this`readLen, t`pos, t`stalls, inBuffer
      ensures t.Valid() && t.stalls >= old(t.stalls) && r in {1, 0, -2}
      ensures r == 1 ==> Buffered() && readLen == 1 && ValidHeader(inBuffer[0])
      ensures r != 1 && t.stalls > old(t.stalls) ==> Buffered() && readLen == 0 && t.pos == old(t.pos)
      ensures r != 1 && t.stalls == old(t.stalls) ==>
        && r == -2 && readLen == 0 && t.pos == old(t.pos) + 1 <= |t.incoming| && !ValidHeader(t.incoming[old(t.pos)])
    {
      var got, data := t.Read(1);
      if got <= 0 {
        return ReadError(got, false);
      }
      inBuffer[0] := data[0];
      if !ValidHeader(inBuffer[0]) {
        return -2;
      }
      readLen := 1;
      assert inBuffer[..1] == data;
      return 1;
    }

    /** The length loop. */
    method ReadLength(ghost s: seq<byte>) returns (r: int)
      requires Buffered() && s == t.incoming[frameStart..]
      requires readLen == 1 || (1 < readLen < 6 && inBuffer[readLen - 1] >= 128)
      modifies this`readLen, t`pos, t`stalls, inBuffer
      ensures Buffered()
      ensures old(readLen) <= readLen <= LoopEnd(s, old(readLen))
      ensures t.stalls >= old(t.stalls)
      ensures if r == 1 then readLen > old(readLen) else t.stalls > old(t.stalls)
      ensures r == 1 ==> readLen == LoopEnd(s, old(readLen)) && (readLen >= 6 || s[readLen - 1] < 128)
      ensures r != 1 ==> r in {-1, -2} && (readLen == 1 || (readLen < 6 && s[readLen - 1] >= 128))
    {
      ghost var e := LoopEnd(s, readLen);
      assert inBuffer[readLen - 1] == inBuffer[..readLen][readLen - 1] == s[readLen - 1];
      while true
        invariant Buffered() && old(readLen) <= readLen && t.stalls == old(t.stalls)
        invariant readLen == 1 || (1 < readLen < 6 && s[readLen - 1] >= 128)
        invariant LoopEnd(s, readLen) == e
        decreases 6 - readLen
      {
        ghost var k := readLen;
        var got := Fill(1);
        if got <= 0 {
          return ReadError(got, true);
        }
        assert inBuffer[readLen - 1] == inBuffer[..readLen][readLen - 1] == s[readLen - 1];
        assert LoopEnd(s, k) == LoopEnd(s, k + 1);
        if !(readLen < 6 && inBuffer[readLen - 1] >= 128) {
          break;
        }
      }
      return 1;
    }

    /** The peer has sent its last, and all of it has been handed on. */
    ghost predicate Exhausted()
      reads this, t
    {
      readLen == 0 && t.pos == |t.incoming|
    }

    /** Everything up to the end of the fixed header; resumed calls start in the middle. `f` is the packet the stream
        holds, if it holds one. */
    method ReadHeader(ghost f: seq<byte>) returns (r: int)
      requires Buffered() && (Exhausted() || (Receiving(f) && readLen < |f|))
      modifies this`readLen, t`pos, t`stalls, inBuffer
      ensures Buffered() && old(readLen) <= readLen && t.stalls >= old(t.stalls)
      ensures r != 1 ==> r in {0, -1, -2} && t.stalls > old(t.stalls)
      ensures old(Exhausted()) ==> r in {0, -2} && Exhausted()
      ensures r == 1 ==> readLen >= FixedLen(f)
      ensures r == 1 && Trap(f, old(readLen)) ==> readLen > |f|
      ensures !old(Exhausted()) && !Trap(f, old(readLen)) ==> readLen <= |f|
      ensures !Trap(f, old(readLen)) && readLen >= 6 ==> readLen == 6 || readLen == old(readLen)
      ensures !old(Exhausted()) && r in {0, -1} && !Trap(f, old(readLen)) ==> readLen < |f|
    {
      if readLen == 0 {
        r := ReadFirst();
        if r != 1 {
          if !old(Exhausted()) { BufferedPacket(f); }
          return;
        }
      }
      r := ReadHeaderOn(f);
    }

    /** The same once the first byte is there. */
    method ReadHeaderOn(ghost f: seq<byte>) returns (r: int)
      requires Buffered() && Receiving(f) && 0 < readLen <= |f|
      requires readLen == 1 || readLen < |f|
      modifies this`readLen, t`pos, t`stalls, inBuffer
      ensures Buffered() && old(readLen) <= readLen && t.stalls >= old(t.stalls)
      ensures r != 1 ==> r in {-1, -2} && t.stalls > old(t.stalls)
      ensures r == 1 ==> readLen >= FixedLen(f)
      ensures r == 1 && Trap(f, old(readLen)) ==> readLen > |f|
      ensures !Trap(f, old(readLen)) ==> readLen <= |f|
      ensures !Trap(f, old(readLen)) && readLen >= 6 ==> readLen == 6 || readLen == old(readLen)
      ensures r == -1 && !Trap(f, old(readLen)) ==> readLen < |f|
    {
      ghost var s := t.incoming[frameStart..];
      BufferedPacket(f);
      Sizing(f, s, readLen);
      if readLen == 1 || (readLen < 6 && inBuffer[readLen - 1] >= 128) {
        r := ReadLength(s);
        return;
      }
      return 1;
    }

    /** For a PUBLISH longer than the buffer: the topic length field. The count asked for is one too high
        when one of its bytes has already been read. */
    method ReadTopicLength(fixedLen: nat) returns (r: int)
      requires Buffered() && readLen >= fixedLen && fixedLen <= 5
      modifies this`readLen, t`pos, t`stalls, inBuffer
      ensures Buffered() && old(readLen) <= readLen
      ensures readLen == old(readLen) || readLen <= fixedLen + 4
      ensures t.stalls >= old(t.stalls) && (r != 1 ==> t.stalls > old(t.stalls) || (r == 0 && readLen > old(readLen)))
      ensures r == 1 ==> readLen >= fixedLen + 2
      ensures r != 1 ==> r in {0, -1, -2} && readLen < fixedLen + 2
    {
      if readLen < fixedLen + 2 {
        var got := Fill(readLen - fixedLen + 2);
        if got <= 0 {
          return ReadError(got, true);
        }
        if readLen < fixedLen + 2 {
          return 0;
        }
      }
      return 1;
    }

    /** `mqtt_message_receive`: 1 for a message, 0 for none yet, -1 for a timeout inside one, -2 for an error. */
    method Receive(ghost f: seq<byte>) returns (r: int)
      requires Buffered() && (Exhausted() || (Receiving(f) && readLen < Min(|f|, inBuffer.Length)))
      modifies this`readLen, this`messageLength, t`pos, t`stalls, inBuffer
      ensures Buffered() && old(readLen) <= readLen
      ensures r in {1, 0, -1, -2} && t.stalls >= old(t.stalls)
      ensures old(Exhausted()) ==> r in {0, -2} && Exhausted() && t.stalls > old(t.stalls)
      ensures r == -2 ==> t.stalls > old(t.stalls) || (|f| > inBuffer.Length && !InParts(f, inBuffer.Length))
      ensures r in {0, -1} ==> t.stalls > old(t.stalls) || (r == 0 && readLen > old(readLen))
      ensures r == 1 ==> messageLength == |f|
      ensures r == 1 && Trap(f, old(readLen)) ==> readLen > |f|
      ensures r == 1 && !Trap(f, old(readLen)) ==> readLen == Min(|f|, inBuffer.Length)
      ensures r == 1 && |f| > inBuffer.Length ==> InParts(f, inBuffer.Length)
      ensures !old(Exhausted()) && r in {0, -1} && !Trap(f, old(readLen)) ==> readLen < Min(|f|, inBuffer.Length)
    {
      hide LoopEnd, Trap, LenValue, LenBytes;
      ghost var k := readLen;
      messageLength := 0;
      r := ReadHeader(f);
      if r != 1 {
        return;
      }
      BufferedPacket(f);
      assert inBuffer[..readLen][..FixedLen(f)] == f[..FixedLen(f)];
      HeaderEnough(f, inBuffer[..readLen]);
      var total, fixedLen := MqttReaders.GetTotalLength(inBuffer[..readLen]);
      messageLength := total;
      if inBuffer.Length < total {
        if TypeOf(inBuffer[0]) != PUBLISH {
          return -2;
        }
        r := CheckTopic(f, fixedLen);
        if r != 1 {
          return;
        }
        total := inBuffer.Length;
      }
      r := ReadRest(total);
    }

    /** For a PUBLISH longer than the buffer: whether it can be taken in parts. */
    method CheckTopic(ghost f: seq<byte>, fixedLen: nat) returns (r: int)
      requires Buffered() && Receiving(f) && fixedLen == FixedLen(f) <= readLen && |f| > inBuffer.Length && readLen < |f|
      requires TypeOf(f[0]) == PUBLISH && inBuffer[0] == f[0]
      modifies this`readLen, t`pos, t`stalls, inBuffer
      ensures Buffered() && old(readLen) <= readLen && t.stalls >= old(t.stalls)
      ensures readLen == old(readLen) || readLen <= fixedLen + 4
      ensures r in {1, 0, -1, -2}
      ensures r == 1 ==> InParts(f, inBuffer.Length)
      ensures r == -2 && t.stalls == old(t.stalls) ==> !InParts(f, inBuffer.Length)
      ensures r in {0, -1} ==> readLen < fixedLen + 2 && (t.stalls > old(t.stalls) || (r == 0 && readLen > old(readLen)))
    {
      hide HeaderDone, TotalLen, LenValue;
      FixedAtMost(f);
      r := ReadTopicLength(fixedLen);
      if r != 1 {
        return;
      }
      BufferedPacket(f);
      var total := fixedLen + Word(inBuffer[fixedLen], inBuffer[fixedLen + 1]) + if QosOf(inBuffer[0]) > 0 then 2 else 0;
      r := if inBuffer.Length < total then -2 else 1;
    }

    lemma FixedAtMost(f: seq<byte>)
      requires Frame(f)
      ensures FixedLen(f) <= 5 && HeaderDone(f)
    {
    }

    /** The rest of the message, or as much of it as the buffer takes. */
    method ReadRest(total: nat) returns (r: int)
      requires Buffered() && total <= inBuffer.Length
      modifies this`readLen, t`pos, t`stalls, inBuffer
      ensures Buffered() && old(readLen) <= readLen && t.stalls >= old(t.stalls)
      ensures r in {1, 0, -1, -2}
      ensures r == 1 ==> readLen == if old(readLen) < total then total else old(readLen)
      ensures r != 1 ==> readLen < total && (t.stalls > old(t.stalls) || (r == 0 && readLen > old(readLen)))
    {
      if readLen < total {
        var got := Fill(total - readLen);
        if got <= 0 {
          return ReadError(got, true);
        }
        if readLen < total {
          return 0;
        }
      }
      return 1;
    }

    // ---- a run of calls over a stream of packets that fit --------------------------------

    /** In step with the splitter: what has been handed on are the first packets of the stream, and the
        buffer holds precisely the bytes read since, less than one packet. */
    ghost predicate Sync()
      reads this, t, inBuffer
    {
      && Buffered() && WellFramed(t.incoming, inBuffer.Length)
      && var packets := Split(t.incoming); var n := |handed|;
         && n <= |packets| && handed == packets[..n]
         && frameStart == |Concat(handed)|
         && if n < |packets| then readLen < |packets[n]| else readLen == 0
    }

    /** All packets are handed on exactly when all of the stream has been read. */
    lemma AtTheEnd()
      requires Sync()
      ensures |handed| < |Split(t.incoming)| <==> t.pos < |t.incoming|
      ensures |handed| == |Split(t.incoming)| ==> handed == Split(t.incoming) && Exhausted()
    {
      var packets := Split(t.incoming);
      if |handed| < |packets| {
        StreamAt(t.incoming, |handed|);
      } else {
        assert packets[..|handed|] == packets;
      }
    }

    /** `mqtt_process_receive` up to the point where a message is handed on, wherever the stream stands. */
    method Poll() returns (r: PollResult)
      requires Sync()
      modifies this, t`pos, t`stalls, inBuffer
      ensures t.stalls >= old(t.stalls)
      ensures r != Message ==> handed == old(handed) && Buffered() && frameStart == old(frameStart) && readLen >= old(readLen)
      ensures var packets := Split(t.incoming); var n := |old(handed)|;
        if n == |packets| then r != Message && Sync() && t.stalls > old(t.stalls)
        else
          && (r == Message ==> handed == old(handed) + [packets[n]] && frameStart == old(frameStart) + |packets[n]|)
          && (r == Message ==> (Sync() <==> !Trap(packets[n], old(readLen))))
          && (r == Nothing && !Trap(packets[n], old(readLen)) ==> Sync())
          && (t.stalls == old(t.stalls) && !Trap(packets[n], old(readLen)) ==> !r.Broken? && t.pos > old(t.pos))
    {
      hide Trap, Split, InParts, LenBytes, LenValue, EncodeLen;
      AtTheEnd();
      ghost var n, packets := |handed|, Split(t.incoming);
      ghost var p := if n < |packets| then packets[n] else [];
      if n < |packets| { StreamAt(t.incoming, n); }
      assert n < |packets| ==> Receiving(p);
      var previous := readLen;
      var recv := Receive(p);
      if recv == 0 {
        return Nothing;
      }
      if recv == -1 {
        return if previous == readLen then Broken(false) else Nothing;
      }
      if recv < 0 {
        return Broken(true);
      }
      BufferedPacket(p);
      assert inBuffer[..messageLength] == p;
      handed := handed + [inBuffer[..messageLength]];
      frameStart := frameStart + messageLength;
      readLen := 0;
      assert handed == packets[..n + 1];
      return Message;
    }

    /** Any number of calls, under any schedule of short reads and timeouts, for as long as the stream has more. The run
        stays in step with the splitter up to a call that would resume in the trap, where it stops. Without a stalled
        read it takes a byte a call and ends with every packet handed on. */
    method PollRun(calls: nat) returns (end: RunEnd)
      requires Sync()
      modifies this, t`pos, t`stalls, inBuffer
      ensures t.stalls >= old(t.stalls) && (end == GaveUp ==> t.stalls > old(t.stalls))
      ensures old(handed) <= handed <= Split(t.incoming) && Buffered() && frameStart == |Concat(handed)|
      ensures end != GaveUp ==> Sync()
      ensures end == Trapped ==> |handed| < |Split(t.incoming)| && Trap(Split(t.incoming)[|handed|], readLen)
      ensures end == InStep && t.stalls == old(t.stalls) ==> t.pos >= old(t.pos) + calls || handed == Split(t.incoming)
      ensures end == InStep && t.stalls == old(t.stalls) && calls >= |t.incoming| - old(t.pos) ==> handed == Split(t.incoming)
      ensures (forall i :: 0 <= i < |Split(t.incoming)| ==> Safe(Split(t.incoming)[i])) ==> end != Trapped
    {
      hide Trap, Split;
      for i := 0 to calls
        invariant Sync() && old(handed) <= handed
        invariant t.stalls >= old(t.stalls) && (t.stalls == old(t.stalls) ==> t.pos >= old(t.pos) + i)
      {
        AtTheEnd();
        if t.pos == |t.incoming| {
          return InStep;
        }
        SafeIff(Split(t.incoming)[|handed|]);
        if Trap(Split(t.incoming)[|handed|], readLen) {
          return Trapped;
        }
        var r := Poll();
        if r.Broken? {
          return GaveUp;
        }
      }
      AtTheEnd();
      return InStep;
    }

    // ---- delivery of a PUBLISH, in parts if it is long -----------------------------------

    /** `deliver_publish`. A timeout between two parts ends the delivery but is reported as success. */
    method DeliverPublish(ghost f: seq<byte>) returns (events: seq<DataEvent>, outcome: Outcome)
      requires Buffered() && Receiving(f) && messageLength == |f| && readLen == Min(|f|, inBuffer.Length)
      modifies t`pos, t`stalls, inBuffer
      ensures var b := f[..Min(|f|, inBuffer.Length)];
        if TopicOf(b).None? then outcome == Failed && events == [] && t.pos == old(t.pos)
        else
          && t.Valid() && old(t.pos) <= t.pos <= frameStart + |f|
          && events != [] && events[0].topic == TopicOf(b)
          && Contiguous(events, |f| - DeliveryStart(b))
          && AllData(events) == f[DeliveryStart(b)..t.pos - frameStart]
          && (outcome == Delivered <==> t.pos == frameStart + |f|)
          && (outcome == Delivered <==> t.stalls == old(t.stalls))
    {
      hide DataOf, TopicOf, Contiguous, AllData, Frame, FixedLen, TotalLen, DeliveryStart;
      BufferedPacket(f);
      events := [];
      var topic, msgData := FirstData(f);
      if topic.None? {
        return [], Failed;
      }
      var total := |msgData| + messageLength - readLen;
      events, outcome := DeliverParts(f, topic, msgData, total, DeliveryStart(f[..readLen]));
    }

    /** Topic and data in the first buffer. */
    method FirstData(ghost f: seq<byte>) returns (topic: Option<seq<byte>>, msgData: seq<byte>)
      requires Frame(f) && readLen == Min(|f|, inBuffer.Length) && inBuffer.Length >= MIN_BUFFER && inBuffer[..readLen] == f[..readLen]
      ensures f[..readLen] != [] && DeliveryStart(f[..readLen]) <= readLen
      ensures topic == TopicOf(f[..readLen])
      ensures msgData == f[DeliveryStart(f[..readLen])..readLen]
    {
      hide TopicOf, DataOf, FixedLen, TotalLen, Frame;
      var b := inBuffer[..readLen];
      FrameLength(f);
      FixedAtMost(f);
      FirstPart(f, b);
      topic := MqttReaders.GetPublishTopic(b);
      var data := MqttReaders.GetPublishData(b);
      msgData := if data.Some? then b[data.value.0..data.value.0 + data.value.1] else [];
      assert b[DeliveryStart(b)..] == f[DeliveryStart(b)..readLen];
    }

    lemma FrameLength(f: seq<byte>)
      requires Frame(f)
      ensures 2 <= FixedLen(f) <= |f|
    {
    }

    /** The event loop: one event for the first part, one more for every further read. */
    method DeliverParts(ghost f: seq<byte>, firstTopic: Option<seq<byte>>, firstData: seq<byte>, total: nat, ghost start: nat)
      returns (events: seq<DataEvent>, outcome: Outcome)
      requires t.Valid() && Receiving(f) && messageLength == |f| && readLen <= |f| && t.pos == frameStart + readLen
      requires start <= readLen && firstData == f[start..readLen] && total == |f| - start && inBuffer.Length > 0
      modifies t`pos, t`stalls, inBuffer
      ensures t.Valid() && old(t.pos) <= t.pos <= frameStart + |f|
      ensures events != [] && events[0].topic == firstTopic
      ensures Contiguous(events, total) && AllData(events) == f[start..t.pos - frameStart]
      ensures outcome == Delivered <==> t.pos == frameStart + |f|
      ensures t.stalls >= old(t.stalls) && (outcome == Delivered <==> t.stalls == old(t.stalls))
    {
      hide Contiguous, AllData, Frame;
      var topic, msgData := firstTopic, firstData;
      var msgRead, offset := readLen, 0;
      events := [DataEvent(topic, msgData, offset, total)];
      FirstEvent(events[0], total);
      while msgRead < messageLength
        invariant t.Valid() && t.pos == frameStart + msgRead && readLen <= msgRead <= messageLength
        invariant t.stalls == old(t.stalls)
        invariant events != [] && events[0].topic == firstTopic && Contiguous(events, total)
        invariant AllData(events) == f[start..msgRead] && offset + |msgData| == msgRead - start
      {
        topic := None;
        offset := offset + |msgData|;
        var want := if messageLength - msgRead > inBuffer.Length then inBuffer.Length else messageLength - msgRead;
        var ret;
        ret, msgData := ReadPart(f, msgRead, want);
        if ret <= 0 {
          return events, if ret == 0 then TimedOut else Failed;
        }
        Receiver.SliceSplit(f, start, msgRead, msgRead + ret);
        msgRead := msgRead + ret;
        AppendEvent(events, DataEvent(topic, msgData, offset, total), total);
        events := events + [DataEvent(topic, msgData, offset, total)];
      }
      outcome := Delivered;
    }

    /** Reads a further part of the packet over the start of the buffer. */
    method ReadPart(ghost f: seq<byte>, ghost msgRead: nat, want: nat) returns (ret: int, data: seq<byte>)
      requires t.Valid() && Receiving(f) && t.pos == frameStart + msgRead
      requires msgRead + want <= |f| && want <= inBuffer.Length
      modifies t`pos, t`stalls, inBuffer
      ensures t.Valid() && ret <= want && t.stalls == old(t.stalls) + if ret > 0 then 0 else 1
      ensures ret > 0 ==> t.pos == frameStart + msgRead + ret && data == f[msgRead..msgRead + ret]
      ensures ret <= 0 ==> t.pos == old(t.pos)
    {
      ret, data := t.Read(want);
      if ret > 0 {
        forall k | 0 <= k < ret {
          inBuffer[k] := data[k];
        }
        SliceOfPrefix(t.incoming, frameStart, f, msgRead, msgRead + ret);
        assert inBuffer[..ret] == data;
        data := inBuffer[..ret];
      }
    }
  }

  /** `reported`: the application has been told of the error. */
  datatype PollResult = Nothing | Message | Broken(reported: bool)

  /** How a run of calls ends. `Trapped`: the next call would resume in the trap. */
  datatype RunEnd = InStep | Trapped | GaveUp

  datatype Outcome = Delivered | TimedOut | Failed

  /** One MQTT_EVENT_DATA. Only the first of a message carries the topic. */
  datatype DataEvent = DataEvent(topic: Option<seq<byte>>, data: seq<byte>, offset: nat, total: nat)

  function AllData(events: seq<DataEvent>): seq<byte> {
    if events == [] then [] else AllData(events[..|events| - 1]) + events[|events| - 1].data
  }

  /** Every event starts where the one before ended, and all announce the same total. */
  predicate Contiguous(events: seq<DataEvent>, total: nat) {
    forall i :: 0 <= i < |events| ==> events[i].total == total && events[i].offset == |AllData(events[..i])|
  }

  lemma FirstEvent(e: DataEvent, total: nat)
    requires e.total == total && e.offset == 0
    ensures Contiguous([e], total) && AllData([e]) == e.data
  {
    AppendEvent([], e, total);
    assert [] + [e] == [e];
  }

  lemma AppendEvent(events: seq<DataEvent>, e: DataEvent, total: nat)
    requires Contiguous(events, total) && e.total == total && e.offset == |AllData(events)|
    ensures Contiguous(events + [e], total) && AllData(events + [e]) == AllData(events) + e.data
  {
    var all := events + [e];
    assert all[..|events|] == events;
    forall i | 0 <= i < |all|
      ensures all[i].total == total && all[i].offset == |AllData(all[..i])|
    {
      if i < |events| { assert all[..i] == events[..i]; }
    }
  }

  /** Where in the packet the delivered bytes start: at the payload the readers find in the first buffer,
      or behind everything buffered if they find none. */
  function DeliveryStart(b: seq<byte>): (k: nat)
    requires b != []
    ensures k <= |b|
  {
    if DataOf(b).Some? then DataOf(b).value.0 else |b|
  }

  /** The readers see to the end of the first buffer. */
  lemma FirstPart(f: seq<byte>, b: seq<byte>)
    requires Frame(f) && b <= f && FixedLen(f) <= |b| && b != []
    ensures TotalLen(b) == |f|
    ensures DataOf(b).Some? ==> DataOf(b).value.0 + DataOf(b).value.1 == |b|
  {
    HeaderEnough(f, b);
  }

  /** What is delivered is the payload exactly when the first buffer holds the whole variable header. The
      receiver's own test is two bytes more generous: it admits packets for which this fails. */
  lemma DeliveryExact(header: byte, topic: seq<byte>, id: nat, payload: seq<byte>, size: nat)
    requires TypeOf(header) == PUBLISH && ValidHeader(header) && 0 < |topic| < 65536 && id < 65536 && payload != []
    requires var f := Packet(header, PublishHead(topic, QosOf(header), id) + payload);
      Frame(f) && (|f| <= size || InParts(f, size))
    ensures var f := Packet(header, PublishHead(topic, QosOf(header), id) + payload);
      var b := f[..Min(|f|, size)];
      TopicOf(b) == Some(topic) && f[DeliveryStart(b)..] == payload <==> |f| - |payload| <= size
  {
    hide EncodeLen, LenBytes, LenValue, TotalLen, Frame, ValidHeader;
    var qos := QosOf(header);
    var head := PublishHead(topic, qos, id);
    var body := head + payload;
    var f := Packet(header, body);
    var r := Min(|f|, size);
    var b := f[..r];
    if |f| - |payload| <= size {
      PublishReads(header, topic, id, payload, r);
    } else {
      var i := 1 + |EncodeLen(|body|)|;
      PacketReads(header, body, |f|);
      assert f[..|f|] == f;
      BodyLayout(f, i, topic, qos, id, payload);
      PacketReads(header, body, r);
      assert b[i] == f[i] && b[i + 1] == f[i + 1];
      assert DataOf(b) == None;
    }
  }

  /** One such packet: with a buffer of nine bytes, a QoS 0 PUBLISH with a topic of six is taken in parts, its topic
      does not fit, and the readers do not find it. */
  lemma DeliveryFails(topic: seq<byte>, payload: seq<byte>)
    requires |topic| == 6 && |payload| == 1
    ensures var f := PublishPacket(0, 0, 0, topic, 0, payload);
      Frame(f) && InParts(f, 9) && Needed(f) == 8 && |f| - |payload| == 10 && TopicOf(f[..9]) == None
  {
    hide Frame, HeaderDone, PublishPacket, Header, TypeOf, QosOf, LenBytes, FixedLen, TotalLen, Word;
    var f := PublishPacket(0, 0, 0, topic, 0, payload);
    TenBeforePayload(topic, payload);
    HeaderGood(f);
    FrameHeader(f);
    assert f[..9][2] == f[2] && f[..9][3] == f[3] && f[..9][0] == f[0];
  }

  lemma FrameHeader(f: seq<byte>)
    requires Frame(f)
    ensures HeaderDone(f)
  {
  }

  lemma TenBeforePayload(topic: seq<byte>, payload: seq<byte>)
    requires |topic| == 6 && |payload| == 1
    ensures var f := PublishPacket(0, 0, 0, topic, 0, payload);
      && |f| == 11 && f[0] == Header(PUBLISH, 0, 0, 0) && f[1] == 9 && Word(f[2], f[3]) == 6
      && FixedLen(f) == FixedLen(f[..9]) == 2 && TotalLen(f) == 11
      && TypeOf(f[0]) == PUBLISH && QosOf(f[0]) == 0
  {
    hide Header, Packet, TypeOf, QosOf, DupOf, RetainOf, WithDup, PublishHead, EncodeLen, LenBytes, LenValue, TotalLen, FixedLen, Word;
    var body := PublishHead(topic, 0, 0) + payload;
    HeadLayout(topic, 0, 0, payload);
    HeaderFields(PUBLISH, 0, 0, 0);
    OneByteLen(9);
    ShortPacket(Header(PUBLISH, 0, 0, 0), body);
  }

  lemma OneByteLen(n: nat)
    requires n < 128
    ensures EncodeLen(n) == [n]
  {
  }

  lemma ShortPacket(header: byte, body: seq<byte>)
    requires |body| == 9 && EncodeLen(9) == [9]
    ensures var f := Packet(header, body);
      && |f| == 11 && f[0] == header && f[1] == 9 && f[2] == body[0] && f[3] == body[1]
      && FixedLen(f) == FixedLen(f[..9]) == 2 && TotalLen(f) == 11
  {
    hide EncodeLen, LenBytes, LenValue, TotalLen, FixedLen;
    var f := Packet(header, body);
    PacketReads(header, body, 11);
    PacketReads(header, body, 9);
    assert f[..11] == f;
  }

  lemma HeaderGood(f: seq<byte>)
    requires |f| >= 2 && f[0] == Header(PUBLISH, 0, 0, 0) && FixedLen(f) == 2 && TotalLen(f) == |f| && f[1] < 128
    ensures Frame(f)
  {
    hide Header, TypeOf, QosOf, DupOf, RetainOf, WithDup, LenBytes, LenValue, TotalLen;
    HeaderFields(PUBLISH, 0, 0, 0);
  }

  /** A stream of whole packets, none longer than the buffer. */
  predicate WellFramed(s: seq<byte>, size: nat) {
    Concat(Split(s)) == s && forall i :: 0 <= i < |Split(s)| ==> Frame(Split(s)[i]) && |Split(s)[i]| <= size
  }

  lemma StreamAt(s: seq<byte>, n: nat)
    requires Concat(Split(s)) == s && n < |Split(s)|
    ensures var at := |Concat(Split(s)[..n])|; at <= |s| && Split(s)[n] <= s[at..]
    ensures |Concat(Split(s)[..n + 1])| == |Concat(Split(s)[..n])| + |Split(s)[n]|
  {
    PacketAt(Split(s), n);
  }

  /** No schedule of short reads can trap the length loop in such a packet: it is longer than five bytes, or
      one of its last two bytes is below 128, or those belong to the header. */
  predicate Safe(f: seq<byte>) {
    HeaderDone(f) ==> |f| > 5 || |f| < FixedLen(f) + 2 || f[|f| - 2] < 128 || f[|f| - 1] < 128
  }

  lemma SafeIff(f: seq<byte>)
    ensures Safe(f) <==> forall k :: 0 <= k < |f| ==> !Trap(f, k)
  {
    if !Safe(f) { assert Trap(f, |f| - 1); }
  }

  /** An acknowledgement is such a packet unless both bytes of its identifier are 128 or more. */
  lemma AckSafe(mtype: nat, qos: nat, id: nat)
    requires mtype in {PUBACK, PUBREC, PUBREL, PUBCOMP} && qos < 3 && id < 65536
    ensures Safe(AckPacket(mtype, qos, id)) <==> id / 256 < 128 || id % 256 < 128
  {
    AckReads(mtype, qos, id);
    var p := AckPacket(mtype, qos, id);
    assert p[1..] == [2] + U16(id);
  }

  /** Where the loop ends, all cases in one. */
  lemma Sizing(f: seq<byte>, s: seq<byte>, k: nat)
    requires Frame(f) && f <= s && 1 <= k < |f|
    ensures k <= FixedLen(f) && (k == 1 || f[k - 1] >= 128) ==> LoopEnd(s, k) == FixedLen(f) && s[FixedLen(f) - 1] < 128
    ensures k > 1 && f[k - 1] < 128 ==> k >= FixedLen(f)
    ensures k > FixedLen(f) && !Trap(f, k) ==> LoopEnd(s, k) <= |f| && (LoopEnd(s, k) >= 6 || s[LoopEnd(s, k) - 1] < 128)
    ensures Trap(f, k) ==> LoopEnd(s, k) > |f| || LoopEnd(s, k) == |s|
    ensures LoopEnd(s, k) <= 6 || LoopEnd(s, k) == k
  {
    var l := f[1..];
    LengthBytesHigh(l);
    assert forall i :: 1 <= i < FixedLen(f) - 1 ==> f[i] == l[i - 1] >= 128;
    if k <= FixedLen(f) && (k == 1 || f[k - 1] >= 128) { LoopEndHeader(f, s, k); }
    if k > FixedLen(f) && !Trap(f, k) { LoopEndBody(f, s, k); }
    if Trap(f, k) { LoopEndTrap(f, s, k); }
    LoopEndSix(s, k);
  }

  lemma {:induction false} LoopEndSix(s: seq<byte>, k: nat)
    requires 1 <= k <= |s|
    ensures LoopEnd(s, k) <= 6 || LoopEnd(s, k) == k
    decreases |s| - k
  {
    if k < |s| && k < 6 { LoopEndSix(s, k + 1); }
  }
}
