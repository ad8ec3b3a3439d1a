/** From bytes to the session: `mqtt_process_receive` on the receiver and the client together, for messages that fit the
    input buffer. */
module ClientBytes {
  import opened Bytes
  import opened FixedHeader
  import opened Wire
  import opened Framing
  import opened Session
  import opened SessionProofs
  import SessionCore
  import Receiver
  import ClientTask
  import MqttReaders
  import Outbox

  /** What the session makes of a whole packet. A PUBLISH that fits is delivered in one event if its topic can be read. */
  function PacketOf(f: seq<byte>): Packet
    requires f != []
  {
    var t := TypeOf(f[0]);
    if t == SUBACK then Suback(IdOf(f), |f| > 4)
    else if t == UNSUBACK then Unsuback(IdOf(f))
    else if t == PUBLISH then
      if TopicOf(f).Some? then Publish(IdOf(f), QosOf(f[0]), 1, true, false) else Publish(IdOf(f), QosOf(f[0]), 0, false, false)
    else if t == PUBACK then Puback(IdOf(f))
    else if t == PUBREC then Pubrec(IdOf(f))
    else if t == PUBREL then Pubrel(IdOf(f))
    else if t == PUBCOMP then Pubcomp(IdOf(f))
    else if t == PINGRESP then Pingresp
    else OtherPacket
  }

  /** The program's reading of it. */
  method Decode(f: seq<byte>) returns (p: Packet)
    requires f != []
    ensures p == PacketOf(f)
  {
    var id := MqttReaders.GetId(f);
    var t := TypeOf(f[0]);
    if t == PUBLISH {
      var topic := MqttReaders.GetPublishTopic(f);
      return if topic.Some? then Publish(id, QosOf(f[0]), 1, true, false) else Publish(id, QosOf(f[0]), 0, false, false);
    }
    p := if t == SUBACK then Suback(id, |f| > 4)
      else if t == UNSUBACK then Unsuback(id)
      else if t == PUBACK then Puback(id)
      else if t == PUBREC then Pubrec(id)
      else if t == PUBREL then Pubrel(id)
      else if t == PUBCOMP then Pubcomp(id)
      else if t == PINGRESP then Pingresp
      else OtherPacket;
  }

  /** An acknowledgement built by a peer is what the session takes it for. */
  lemma AckDecodes(mtype: nat, qos: nat, id: nat)
    requires mtype in {PUBACK, PUBREC, PUBREL, PUBCOMP} && qos < 3 && id < 65536
    ensures PacketOf(AckPacket(mtype, qos, id))
         == if mtype == PUBACK then Puback(id) else if mtype == PUBREC then Pubrec(id) else if mtype == PUBREL then Pubrel(id) else Pubcomp(id)
  {
    AckReads(mtype, qos, id);
  }

  function PacketsOf(frames: seq<seq<byte>>): (ps: seq<Packet>)
    requires forall i :: 0 <= i < |frames| ==> frames[i] != []
    ensures |ps| == |frames|
  {
    seq(|frames|, i requires 0 <= i < |frames| => PacketOf(frames[i]))
  }

  /** The session after packets in order, each with the fate of the write that answers it. */
  function Processed(s: State, ps: seq<Packet>, ws: seq<WriteResult>): State
    requires |ps| <= |ws|
    decreases |ps|
  {
    if ps == [] then s else ProcessReceive(Processed(s, ps[..|ps| - 1], ws), ps[|ps| - 1], ws[|ps| - 1]).0
  }

  lemma {:induction false} ProcessedKeeps(s: State, ps: seq<Packet>, ws: seq<WriteResult>)
    requires Good(s) && |ps| <= |ws| && forall i :: 0 <= i < |ps| ==> PacketIdOk(ps[i])
    ensures Keeps(s, Processed(s, ps, ws))
    decreases |ps|
  {
    hide Good, Keeps, ProcessReceive, PacketIdOk;
    if ps == [] {
      StaysGood(s);
    } else {
      var t := Processed(s, ps[..|ps| - 1], ws);
      ProcessedKeeps(s, ps[..|ps| - 1], ws);
      KeepsGood(s, t);
      ReceiveKeeps(t, ps[|ps| - 1], ws[|ps| - 1]);
      KeepsTrans(s, t, Processed(s, ps, ws));
    }
  }

  lemma StaysGood(s: State)
    requires Good(s)
    ensures Keeps(s, s)
  {
    SameKeeps(s, s);
  }

  lemma KeepsGood(s: State, t: State)
    requires Keeps(s, t)
    ensures Good(t)
  {
  }

  lemma ProcessedMore(s: State, ps: seq<Packet>, p: Packet, ws: seq<WriteResult>)
    requires |ps| < |ws|
    ensures Processed(s, ps + [p], ws) == ProcessReceive(Processed(s, ps, ws), p, ws[|ps|]).0
  {
    assert (ps + [p])[..|ps|] == ps;
  }

  // ---- the two together ------------------------------------------------------------------------

  /** Frame n of the stream, of which there are more. */
  function FrameAt(stream: seq<byte>, n: nat): seq<byte>
    requires n < |Split(stream)|
  {
    Split(stream)[n]
  }

  /** One call of `mqtt_process_receive`: nothing yet, a packet handled, or a failure handed to the session. */
  method Receive(rx: Receiver.Receiver, c: ClientTask.Client, w: WriteResult) returns (r: Receiver.PollResult, ok: bool)
    requires rx.Sync() && c.Valid()
    modifies rx, rx.t`pos, rx.t`stalls, rx.inBuffer, c, c.outbox, c.outbox.nodes
    ensures c.Valid() && c.Framed() && rx.t.stalls >= old(rx.t.stalls)
    ensures var stream, n := rx.t.incoming, |old(rx.handed)|;
      n < |Split(stream)| && !Receiver.Trap(FrameAt(stream, n), old(rx.readLen)) && rx.t.stalls == old(rx.t.stalls) ==>
      !r.Broken? && rx.t.pos > old(rx.t.pos)
    ensures var stream, n := rx.t.incoming, |old(rx.handed)|; match r
      case Nothing =>
        && ok && c.Abs() == old(c.Abs()) && rx.handed == old(rx.handed)
        && (n < |Split(stream)| && !Receiver.Trap(FrameAt(stream, n), old(rx.readLen)) ==> rx.Sync())
      case Broken(reported) =>
        && rx.handed == old(rx.handed)
        && (c.Abs(), ok) == ProcessReceive(old(c.Abs()), ReceiveFailed(reported), w)
      case Message =>
        && n < |Split(stream)| && FrameAt(stream, n) != [] && rx.handed == old(rx.handed) + [FrameAt(stream, n)]
        && (c.Abs(), ok) == ProcessReceive(old(c.Abs()), PacketOf(FrameAt(stream, n)), w)
        && (rx.Sync() <==> !Receiver.Trap(FrameAt(stream, n), old(rx.readLen)))
  {
    hide ProcessReceive, Split, Receiver.Trap, Receiver.Receiver.Buffered, Outbox.Outbox.Linked, PacketOf;
    ghost var n := |rx.handed|;
    if n < |Split(rx.t.incoming)| { FramesThere(rx); }
    r := rx.Poll();
    ok := true;
    match r {
      case Nothing =>
      case Broken(reported) => ok := c.ProcessReceive(ReceiveFailed(reported), w);
      case Message =>
        var p := Decode(rx.handed[|rx.handed| - 1]);
        ok := c.ProcessReceive(p, w);
    }
  }

  lemma FramesThere(rx: Receiver.Receiver)
    requires rx.Sync()
    ensures forall i :: 0 <= i < |Split(rx.t.incoming)| ==> Split(rx.t.incoming)[i] != []
  {
  }

  /** `Refused`: a packet was received whole and the session found a reason in it to give the connection up. */
  datatype StreamEnd = InStep | Trapped | GaveUp(reported: bool) | Refused

  /** In step with the stream, and the session has gone through the packets from `from` on: these are `ps`. */
  ghost predicate Joined(rx: Receiver.Receiver, c: ClientTask.Client, s: State, from: nat, ps: seq<Packet>, ws: seq<WriteResult>)
    reads rx, rx.t, rx.inBuffer, c, c.outbox, c.outbox.nodes
  {
    && rx.Sync() && c.Valid() && from <= |rx.handed| && |ps| <= |ws|
    && (forall i :: 0 <= i < |rx.handed| ==> rx.handed[i] != []) && rx.handed <= Split(rx.t.incoming)
    && ps == PacketsOf(rx.handed[from..])
    && c.Abs() == Processed(s, ps, ws)
  }

  /** One call in a run of them. */
  method Turn(rx: Receiver.Receiver, c: ClientTask.Client, ws: seq<WriteResult>, k: nat, ghost s: State, ghost from: nat, ghost ps: seq<Packet>)
    returns (end: StreamEnd, k': nat, ghost ps': seq<Packet>)
    requires Joined(rx, c, s, from, ps, ws) && k == |ps| < |ws|
    requires |rx.handed| < |Split(rx.t.incoming)| && !Receiver.Trap(FrameAt(rx.t.incoming, |rx.handed|), rx.readLen)
    modifies rx, rx.t`pos, rx.t`stalls, rx.inBuffer, c, c.outbox, c.outbox.nodes
    ensures c.Framed() && end != Trapped && k <= k' <= k + 1 && rx.t.stalls >= old(rx.t.stalls)
    ensures rx.t.stalls == old(rx.t.stalls) ==> !end.GaveUp? && rx.t.pos > old(rx.t.pos)
    ensures old(rx.handed) <= rx.handed
    ensures !end.GaveUp? ==> Joined(rx, c, s, from, ps', ws) && k' == |ps'|
    ensures end.GaveUp? ==>
      && rx.handed == old(rx.handed) && c.Valid() && ps' == ps + [ReceiveFailed(end.reported)] && c.Abs() == Processed(s, ps', ws)
  {
    hide ProcessReceive, Split, Receiver.Trap, Processed, PacketOf;
    ps', k', end := ps, k, InStep;
    ghost var before := rx.handed;
    var r, ok := Receive(rx, c, ws[k]);
    match r {
      case Nothing =>
      case Broken(reported) =>
        ps' := ps + [ReceiveFailed(reported)];
        ProcessedMore(s, ps, ReceiveFailed(reported), ws);
        end := GaveUp(reported);
      case Message =>
        ghost var f := FrameAt(rx.t.incoming, |before|);
        ps' := ps + [PacketOf(f)];
        ProcessedMore(s, ps, PacketOf(f), ws);
        PacketsMore(before, from, f);
        k' := k + 1;
        if !ok { end := StreamEnd.Refused; }
    }
  }

  /** Any number of calls on any stream of whole packets, under any schedule: the session has gone through just the
      packets of the stream, in order. */
  method ReceiveRun(rx: Receiver.Receiver, c: ClientTask.Client, ws: seq<WriteResult>) returns (end: StreamEnd, ghost ps: seq<Packet>)
    requires rx.Sync() && c.Valid()
    modifies rx, rx.t`pos, rx.t`stalls, rx.inBuffer, c, c.outbox, c.outbox.nodes
    ensures c.Valid() && c.Framed() && old(rx.handed) <= rx.handed <= Split(rx.t.incoming)
    ensures forall i :: 0 <= i < |rx.handed| ==> rx.handed[i] != []
    ensures ps == PacketsOf(rx.handed[|old(rx.handed)|..]) + (if end.GaveUp? then [ReceiveFailed(end.reported)] else [])
    ensures |ps| <= |ws| && c.Abs() == Processed(old(c.Abs()), ps, ws)
    ensures Good(old(c.Abs())) && AllIdsOk(ps) ==> Keeps(old(c.Abs()), c.Abs())
    ensures end == Trapped ==> |rx.handed| < |Split(rx.t.incoming)| && Receiver.Trap(FrameAt(rx.t.incoming, |rx.handed|), rx.readLen)
    ensures end == InStep && rx.t.stalls == old(rx.t.stalls) && |ws| >= |rx.t.incoming| - old(rx.t.pos) ==> rx.handed == Split(rx.t.incoming)
  {
    hide ProcessReceive, Split, Receiver.Trap, Processed, Keeps, Good, PacketIdOk, PacketsOf, ClientTask.Client.Valid, Receiver.Receiver.Buffered, Outbox.Outbox.Linked;
    ghost var s, from := c.Abs(), |rx.handed|;
    Beginning(rx, c, ws);
    ps := [];
    var k := 0;
    end := InStep;
    for n := 0 to |ws|
      invariant Joined(rx, c, s, from, ps, ws) && k == |ps| <= n && end == InStep
      invariant c.Framed() && old(rx.handed) <= rx.handed
      invariant rx.t.stalls >= old(rx.t.stalls) && (rx.t.stalls == old(rx.t.stalls) ==> rx.t.pos >= old(rx.t.pos) + n)
    {
      rx.AtTheEnd();
      if rx.t.pos == |rx.t.incoming| { break; }
      if Receiver.Trap(FrameAt(rx.t.incoming, |rx.handed|), rx.readLen) {
        end := Trapped;
        break;
      }
      end, k, ps := Turn(rx, c, ws, k, s, from, ps);
      if end != InStep { break; }
    }
    if end == InStep { rx.AtTheEnd(); }
    if Good(s) && AllIdsOk(ps) { ProcessedKeeps(s, ps, ws); }
  }

  predicate AllIdsOk(ps: seq<Packet>) {
    forall i :: 0 <= i < |ps| ==> PacketIdOk(ps[i])
  }

  lemma Beginning(rx: Receiver.Receiver, c: ClientTask.Client, ws: seq<WriteResult>)
    requires rx.Sync() && c.Valid()
    ensures Joined(rx, c, c.Abs(), |rx.handed|, [], ws)
  {
    FramesThere(rx);
    assert rx.handed[|rx.handed|..] == [];
  }

  lemma PacketsMore(frames: seq<seq<byte>>, from: nat, f: seq<byte>)
    requires from <= |frames| && f != [] && forall i :: 0 <= i < |frames| ==> frames[i] != []
    ensures PacketsOf((frames + [f])[from..]) == PacketsOf(frames[from..]) + [PacketOf(f)]
  {
    assert (frames + [f])[from..] == frames[from..] + [f];
  }
}
