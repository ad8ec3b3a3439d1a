/** The MQTT client as the program keeps it: fields updated in place and a linked outbox. Every method does to
    them what the state machine of module Session says. */
module ClientTask {
  import opened Bytes
  import opened FixedHeader
  import opened OutboxSpec
  import opened SessionCore
  import opened Session
  import Outbox
  import Wire
  import SessionProofs
  import SessionRuns
  import SessionLinks

  class Client {
    const cfg: Config
    const outbox: Outbox.Outbox
    var st: ClientState
    var place: Place
    var run: bool
    var clock: nat
    var lastRetransmit: nat
    var waitPing: bool
    var keepaliveTick: nat
    var refreshTick: nat
    var reconnectTick: nat
    var waitTimeout: nat
    var pendingQos: nat
    var disconnectBit: bool
    var reconnectBit: bool
    var appConnected: bool
    // What has happened so far.
    ghost var ledger: seq<Entry>
    ghost var writes: seq<Write>
    ghost var events: seq<Event>

    ghost function Abs(): State
      reads this, outbox
    {
      State(Core(outbox.items, ledger, writes), events, st, place, run, clock, lastRetransmit, waitPing, keepaliveTick,
            refreshTick, reconnectTick, waitTimeout, pendingQos, disconnectBit, reconnectBit, appConnected)
    }

    ghost predicate Valid()
      reads this, outbox, outbox.nodes
    {
      outbox.Valid()
    }

    /** No item comes from anywhere but the outbox itself or fresh memory. */
    twostate predicate Framed()
      reads this, outbox
    {
      forall k :: 0 <= k < |outbox.nodes| ==> outbox.nodes[k] in old(outbox.nodes) || fresh(outbox.nodes[k])
    }

    constructor (cfg: Config)
      ensures Valid() && this.cfg == cfg && Abs() == Start && fresh(outbox) && outbox.nodes == []
    {
      this.cfg := cfg;
      outbox := new Outbox.Outbox();
      st, place, run, clock, lastRetransmit := Init, LoopHead, true, 0, 0;
      waitPing, keepaliveTick, refreshTick, reconnectTick, waitTimeout, pendingQos := false, 0, 0, 0, 0, 0;
      disconnectBit, reconnectBit, appConnected := false, false, false;
      ledger, writes, events := [], [], [];
    }

    // ---- events and writes -----------------------------------------------------------------

    method Dispatch(e: Event)
      modifies this`events, this`appConnected
      ensures Abs() == Session.Dispatch(old(Abs()), e)
    {
      events := events + [e];
      if e == NowConnected {
        appConnected := true;
      } else if e == NowDisconnected || e == ErrorEvent {
        appConnected := false;
      }
    }

    method Report(w: WriteResult)
      modifies this`events, this`appConnected
      ensures Abs() == Session.Report(old(Abs()), w)
    {
      if w == WriteError {
        Dispatch(ErrorEvent);
      }
    }

    method WriteOther(mtype: nat, id: nat, w: WriteResult)
      modifies this`events, this`appConnected, this`writes
      ensures Abs() == Session.WriteOther(old(Abs()), mtype, id, w)
    {
      writes := writes + [SessionCore.WroteOther(mtype, id)];
      Report(w);
    }

    method Abort()
      modifies this`st, this`waitTimeout, this`reconnectTick, this`waitPing, this`events, this`appConnected
      ensures Abs() == Session.Abort(cfg, old(Abs()))
    {
      hide Session.Dispatch;
      waitTimeout := cfg.reconnectMs;
      reconnectTick := clock;
      st := WaitReconnect;
      waitPing := false;
      Dispatch(NowDisconnected);
    }

    method GiveUp(w: WriteResult)
      modifies this`st, this`waitTimeout, this`reconnectTick, this`waitPing, this`events, this`appConnected
      ensures Abs() == Session.GiveUp(cfg, old(Abs()), w)
    {
      Report(w);
      Abort();
    }

    // ---- the outbox ------------------------------------------------------------------------

    /** `remove_initiator_message` */
    method RemoveInitiator(id: nat, mtype: nat, ghost fate: Fate) returns (found: bool)
      requires Valid()
      modifies this`ledger, outbox, outbox.nodes
      ensures Valid() && Framed()
      ensures var s := old(Abs()); var i := IndexOfMatch(s.core.outbox, id, mtype);
        && found == (i < |s.core.outbox|)
        && Abs() == if found then s.(core := Drop(s.core, i, fate)) else s
    {
      hide Outbox.Outbox.Linked, Retire, IndexOfMatch, SizeOf;
      ghost var was := outbox.items;
      outbox.LinkedAt(0);
      found := outbox.Delete(id, mtype);
      if found {
        ledger := Retire(ledger, Serials(was) - Serials(outbox.items), fate);
      }
    }

    method SetPending(id: nat, p: Pending)
      requires Valid()
      modifies outbox, outbox.nodes
      ensures Valid() && outbox.nodes == old(outbox.nodes)
      ensures Abs() == var s := old(Abs()); s.(core := Session.SetPending(s.core, id, p))
    {
      var _ := outbox.SetPending(id, p);
    }

    method SetTick(id: nat, tick: int)
      requires Valid()
      modifies outbox, outbox.nodes
      ensures Valid() && outbox.nodes == old(outbox.nodes)
      ensures Abs() == var s := old(Abs()); s.(core := Session.SetTick(s.core, id, tick))
    {
      var _ := outbox.SetTick(id, tick);
    }

    /** Taking an item's data for the outbound message, with DUP set in the stored copy where due, and writing it. */
    method WriteItem(n: Outbox.Node, ghost i: nat, w: WriteResult)
      requires Valid() && i < |outbox.nodes| && outbox.nodes[i] == n
      modifies this`writes, outbox, outbox.nodes
      ensures Valid() && outbox.nodes == old(outbox.nodes)
      ensures i < |old(outbox.items)| && old(outbox.items)[i] == old(n.Value())
      ensures Abs() == var s := old(Abs()); s.(core := Send(s.core, i, w == WriteOk))
    {
      hide Outbox.Outbox.Valid, WithDup, NeedsDup;
      ghost var it := MarkDup(n, i);
      writes := writes + [WroteItem(n.serial, n.id, n.mtype, n.buffer, w == WriteOk)];
    }

    /** DUP in the stored copy of a PUBLISH that has gone out before. */
    method MarkDup(n: Outbox.Node, ghost i: nat) returns (ghost it: Item)
      requires Valid() && i < |outbox.nodes| && outbox.nodes[i] == n
      modifies outbox, outbox.nodes
      ensures Valid() && outbox.nodes == old(outbox.nodes)
      ensures i < |old(outbox.items)| && it == old(outbox.items)[i] == old(n.Value())
      ensures n.Value() == it.(data := if NeedsDup(it) then it.data[0 := WithDup(it.data[0])] else it.data)
      ensures outbox.items == old(outbox.items)[i := n.Value()]
    {
      hide Outbox.Outbox.Linked, WithDup, SizeOf;
      outbox.LinkedAt(i);
      it := n.Value();
      if n.mtype == PUBLISH && n.qos > 0 && n.pending == Transmitted && n.buffer != [] {
        outbox.SetDup(n, i);
      } else {
        assert outbox.items[i := it] == outbox.items;
      }
      outbox.LinkedAt(i);
    }

    method DropNode(n: Outbox.Node, ghost i: nat, ghost fate: Fate)
      requires Valid() && i < |outbox.nodes| && outbox.nodes[i] == n
      modifies this`ledger, outbox, outbox.nodes
      ensures Valid() && Framed()
      ensures i < |old(outbox.items)|
      ensures Abs() == var s := old(Abs()); s.(core := Drop(s.core, i, fate))
    {
      hide Outbox.Outbox.Linked, Outbox.Outbox.Valid, SizeOf, Retire;
      ghost var was, ns := outbox.items, outbox.nodes;
      DistinctNodes(i);
      var _ := outbox.DeleteItem(n);
      ghost var k :| 0 <= k < |ns| && ns[k] == n && outbox.items == RemoveAt(was, k) && outbox.nodes == ns[..k] + ns[k + 1..];
      assert k == i;
      ledger := Retire(ledger, Serials(was) - Serials(outbox.items), fate);
    }

    lemma DistinctNodes(i: nat)
      requires Valid() && i < |outbox.nodes|
      ensures forall k :: 0 <= k < |outbox.nodes| && outbox.nodes[k] == outbox.nodes[i] ==> k == i
      ensures |outbox.items| == |outbox.nodes|
    {
    }

    // ---- one received packet ---------------------------------------------------------------

    method Settle(id: nat, mtype: nat, ghost fate: Fate, e: Event)
      requires Valid()
      modifies this, outbox, outbox.nodes
      ensures Valid() && Framed() && Abs() == Session.Settle(old(Abs()), id, mtype, fate, e)
    {
      hide Outbox.Outbox.Valid, Drop;
      var found := RemoveInitiator(id, mtype, fate);
      if found {
        Dispatch(e);
      }
    }

    method ProcessReceive(p: Session.Packet, w: WriteResult) returns (ok: bool)
      requires Valid()
      modifies this, outbox, outbox.nodes
      ensures Valid() && Framed() && (Abs(), ok) == Session.ProcessReceive(old(Abs()), p, w)
    {
      hide Outbox.Outbox.Valid, Drop, Session.Dispatch, Session.SetPending, Session.Report, Session.Settle, Session.WriteOther;
      ok := true;
      match p {
        case NoPacket =>
        case ReceiveFailed(reported) =>
          ok := false;
          if reported { Dispatch(ErrorEvent); }
        case Suback(id, readable) =>
          ok := SubscriptionGranted(id, readable);
        case Unsuback(id) =>
          Settle(id, UNSUBSCRIBE, Granted, Unsubscribed);
        case Publish(id, qos, parts, delivered, reported) =>
          ok := Deliver(id, qos, parts, delivered, reported, w);
        case Puback(id) =>
          Settle(id, PUBLISH, Fate.Published, MessagePublished(id));
        case Pubrec(id) =>
          Release(id, w);
        case Pubrel(id) =>
          WriteOther(PUBCOMP, id, w);
        case Pubcomp(id) =>
          Settle(id, PUBLISH, Fate.Published, MessagePublished(id));
        case Pingresp =>
          waitPing, keepaliveTick := false, clock;
        case OtherPacket =>
      }
    }

    /** PUBREC is answered by PUBREL, whether or not there is a message it belongs to. */
    method Release(id: nat, w: WriteResult)
      requires Valid()
      modifies this, outbox, outbox.nodes
      ensures Valid() && Framed() && (Abs(), true) == Session.ProcessReceive(old(Abs()), Pubrec(id), w)
    {
      hide Outbox.Outbox.Valid, Session.SetPending, Session.Report;
      SetPending(id, Acknowledged);
      writes := writes + [WrotePubrel(id)];
      Report(w);
    }

    method SubscriptionGranted(id: nat, readable: bool) returns (ok: bool)
      requires Valid()
      modifies this, outbox, outbox.nodes
      ensures Valid() && Framed() && (Abs(), ok) == Session.ProcessReceive(old(Abs()), Suback(id, readable), WriteOk)
    {
      hide Outbox.Outbox.Valid, Drop, Session.Dispatch;
      ok := true;
      var found := RemoveInitiator(id, SUBSCRIBE, Fate.Granted);
      if found {
        ok := readable;
        if readable { Dispatch(Subscribed); }
      }
    }

    method Deliver(id: nat, qos: nat, parts: nat, delivered: bool, reported: bool, w: WriteResult) returns (ok: bool)
      modifies this`events, this`appConnected, this`writes
      ensures (Abs(), ok) == Session.ProcessReceive(old(Abs()), Session.Publish(id, qos, parts, delivered, reported), w)
    {
      hide Session.Dispatch, Session.WriteOther;
      for n := 0 to parts
        invariant Abs() == Session.Parts(old(Abs()), n)
      {
        Dispatch(DataArrived);
      }
      ok := delivered;
      if !delivered {
        if reported { Dispatch(ErrorEvent); }
      } else if qos == 1 {
        WriteOther(PUBACK, id, w);
        ok := w == WriteOk;
      } else if qos == 2 {
        WriteOther(PUBREC, id, w);
        ok := w == WriteOk;
      }
    }

    // ---- resending -------------------------------------------------------------------------

    /** `mqtt_resend_queued` */
    method ResendItem(n: Outbox.Node, ghost i: nat, w: WriteResult) returns (ok: bool)
      requires Valid() && i < |outbox.nodes| && outbox.nodes[i] == n
      modifies this, outbox, outbox.nodes
      ensures Valid() && outbox.nodes == old(outbox.nodes) && i < |old(outbox.items)|
      ensures (Abs(), ok) == Session.ResendItem(cfg, old(Abs()), i, w)
    {
      hide Outbox.Outbox.Valid, Send, Session.Dispatch, Session.Abort;
      ghost var it := n.Value();
      pendingQos := n.qos;
      WriteItem(n, i, w);
      ok := w == WriteOk;
      if !ok {
        GiveUp(w);
      }
    }

    method ResendPubrel(n: Outbox.Node, ghost i: nat, w: WriteResult)
      requires Valid() && i < |outbox.nodes| && outbox.nodes[i] == n
      modifies this, outbox, outbox.nodes
      ensures Valid() && outbox.nodes == old(outbox.nodes) && i < |old(outbox.items)|
      ensures Abs() == Session.ResendPubrel(cfg, old(Abs()), i, w)
    {
      hide Outbox.Outbox.Linked, Session.Dispatch, Session.Abort;
      outbox.LinkedAt(i);
      assert n.Value() == outbox.items[i];
      pendingQos := n.qos;
      writes := writes + [WrotePubrel(n.id)];
      if w != WriteOk {
        GiveUp(w);
      }
    }

    method ResendQueued(n: Outbox.Node, ghost i: nat, w: WriteResult)
      requires Valid() && i < |outbox.nodes| && outbox.nodes[i] == n
      modifies this, outbox, outbox.nodes
      ensures Valid() && Framed() && i < |old(outbox.items)|
      ensures Abs() == Session.ResendQueued(cfg, old(Abs()), i, w)
    {
      hide Outbox.Outbox.Linked, Session.SetPending, Drop, Send, Session.GiveUp;
      outbox.LinkedAt(i);
      ghost var it := outbox.items[i];
      var id, mtype, qos := n.id, n.mtype, n.qos;
      var ok := ResendItem(n, i, w);
      if ok {
        if mtype == PUBLISH && qos == 0 {
          DropNode(n, i, SentQos0);
        } else if qos > 0 {
          SetPending(id, Transmitted);
        }
      }
    }

    method Retransmit(input: TaskInput)
      requires Valid()
      modifies this, outbox, outbox.nodes
      ensures Valid() && Framed() && Abs() == Session.Retransmit(cfg, old(Abs()), input)
    {
      hide Outbox.Outbox.Linked, Outbox.Outbox.Valid, Session.ResendItem, Session.ResendPubrel, IndexOfPending, Outbox.Node.Value;
      lastRetransmit := clock;
      var n, i := DueItem(Transmitted);
      if n != null {
        var _ := ResendItem(n, i, input.resendWrite);
      }
      n, i := DueItem(Acknowledged);
      if n != null {
        ResendPubrel(n, i, input.pubrelWrite);
      }
    }

    /** The oldest item in a state, if it has waited long enough. */
    method DueItem(p: Pending) returns (n: Outbox.Node?, ghost i: nat)
      requires Valid()
      ensures i == IndexOfPending(outbox.items, p) && (n != null <==> Due(cfg, Abs(), i))
      ensures n != null ==> i < |outbox.nodes| && n == outbox.nodes[i]
    {
      hide Outbox.Outbox.Linked;
      outbox.LinkedAt(0);
      i := IndexOfPending(outbox.items, p);
      var tick;
      n, tick := outbox.Dequeue(p);
      if n != null && clock - tick <= cfg.retransmitMs {
        n := null;
      }
    }

    method Resend(input: TaskInput)
      requires Valid()
      modifies this, outbox, outbox.nodes
      ensures Valid() && Framed() && Abs() == Session.Resend(cfg, old(Abs()), input)
    {
      hide Outbox.Outbox.Linked, Session.ResendQueued, Session.Retransmit, HasTimedOut;
      if lastRetransmit == 0 {
        lastRetransmit := clock;
      }
      outbox.LinkedAt(0);
      var n, _ := outbox.Dequeue(Queued);
      if n != null {
        ResendQueued(n, IndexOfPending(outbox.items, Queued), input.resendWrite);
      } else if HasTimedOut(lastRetransmit, cfg.retransmitMs, clock) {
        Retransmit(input);
      }
    }

    // ---- keepalive -------------------------------------------------------------------------

    method ProcessKeepalive(w: WriteResult) returns (ok: bool)
      modifies this
      ensures (Abs(), ok) == Session.ProcessKeepalive(cfg, old(Abs()), w)
    {
      hide Session.Dispatch, HasTimedOut;
      ok := true;
      if cfg.keepaliveMs != 0 {
        if waitPing {
          if HasTimedOut(keepaliveTick, cfg.keepaliveMs, clock) {
            Abort();
            ok := false;
          }
        } else if HasTimedOut(keepaliveTick, cfg.keepaliveMs / 2, clock) {
          WriteOther(PINGREQ, 0, w);
          if w == WriteOk {
            waitPing := true;
          } else {
            Abort();
            ok := false;
          }
        }
      }
    }

    method Refresh()
      modifies this
      ensures Abs() == Session.Refresh(cfg, old(Abs()))
    {
      hide Session.Dispatch, HasTimedOut;
      if cfg.refreshMs > 0 && HasTimedOut(refreshTick, cfg.refreshMs, clock) {
        Abort();
        st := Init;
      }
    }

    // ---- one iteration of the task ----------------------------------------------------------

    method IterateInit(c: ConnectResult)
      modifies this
      ensures Abs() == Session.IterateInit(cfg, old(Abs()), c)
    {
      hide Session.Dispatch, Session.Abort, Log;
      disconnectBit, reconnectBit := false, false;
      if c == NoTransport {
        run := false;
        return;
      }
      Dispatch(BeforeConnect);
      if c == TransportRefused {
        Dispatch(ErrorEvent);
        Abort();
      } else {
        Handshake(c);
      }
    }

    method Handshake(c: ConnectResult)
      requires c.Refused? || c.Accepted?
      modifies this
      ensures var s := old(Abs()).(waitPing := false, core := Log(old(Abs()).core, WroteOther(CONNECT, 0)));
        Abs() == if c.Accepted? then Session.Dispatch(s.(st := Connected), NowConnected).(refreshTick := s.clock, keepaliveTick := s.clock)
                 else Session.Abort(cfg, if c.reported then Session.Dispatch(s, ErrorEvent) else s)
    {
      hide Session.Dispatch, Session.Abort;
      waitPing := false;
      writes := writes + [SessionCore.WroteOther(CONNECT, 0)];
      if c.Refused? {
        if c.reported { Dispatch(ErrorEvent); }
        Abort();
      } else {
        Establish();
      }
    }

    method Establish()
      modifies this
      ensures Abs() == var s := old(Abs());
        Session.Dispatch(s.(st := Connected), NowConnected).(refreshTick := s.clock, keepaliveTick := s.clock)
    {
      hide Session.Dispatch;
      st := Connected;
      Dispatch(NowConnected);
      refreshTick, keepaliveTick := clock, clock;
    }

    method IterateConnected(input: TaskInput)
      requires Valid()
      modifies this, outbox, outbox.nodes
      ensures Valid() && Framed() && Abs() == Session.IterateConnected(cfg, old(Abs()), input)
    {
      hide Outbox.Outbox.Valid, Session.Dispatch, Session.Abort, Session.Report, Session.ProcessReceive, Session.Resend,
        Session.ProcessKeepalive, Session.Refresh;
      if disconnectBit {
        disconnectBit := false;
        WriteOther(DISCONNECT, 0, input.disconnectWrite);
        Abort();
        return;
      }
      var ok := ProcessReceive(input.packet, input.replyWrite);
      if !ok {
        Abort();
        return;
      }
      Resend(input);
      ok := ProcessKeepalive(input.pingWrite);
      if ok {
        Refresh();
      }
    }

    method IterateWait()
      modifies this
      ensures Abs() == Session.IterateWait(cfg, old(Abs()))
    {
      if !cfg.autoReconnect && reconnectBit {
        reconnectBit := false;
        st := Init;
        waitTimeout := RECONNECT_DEFAULT_MS;
      } else if cfg.autoReconnect && clock - reconnectTick > waitTimeout {
        st := Init;
        reconnectTick := clock;
      }
    }

    method SweepExpired()
      requires Valid()
      modifies this`ledger, outbox, outbox.nodes
      ensures Valid() && Framed()
      ensures Abs() == var s := old(Abs()); s.(core := Sweep(s.core, s.clock, cfg.expireMs))
    {
      hide Outbox.Outbox.Valid, Retire;
      ghost var was := outbox.items;
      var _ := outbox.DeleteExpired(clock, cfg.expireMs);
      ledger := Retire(ledger, Serials(was) - Serials(outbox.items), TimedOut);
    }

    method Iterate(input: TaskInput)
      requires Valid()
      modifies this, outbox, outbox.nodes
      ensures Valid() && Framed() && Abs() == Session.Iterate(cfg, old(Abs()), input)
    {
      hide Outbox.Outbox.Valid, Sweep, Session.IterateInit, Session.IterateConnected, Session.IterateWait;
      SweepExpired();
      match st {
        case Disconnected =>
        case Init => IterateInit(input.connect);
        case Connected => IterateConnected(input);
        case WaitReconnect => IterateWait();
      }
      place := if st == Connected then Polling else LoopHead;
    }

    method EndTask()
      requires Valid()
      modifies this, outbox, outbox.nodes
      ensures Valid() && Framed()
      ensures Abs() == var s := old(Abs()); s.(core := Clear(s.core), st := Disconnected, place := Ended)
    {
      hide Outbox.Outbox.Valid, Retire;
      ghost var was := outbox.items;
      outbox.DeleteAll();
      ledger := Retire(ledger, Serials(was) - Serials([]), Cleared);
      st, place := Disconnected, Ended;
    }

    // ---- the API ---------------------------------------------------------------------------

    method Store(mtype: nat, id: nat, qos: nat, packet: seq<byte>) returns (n: Outbox.Node)
      requires Valid()
      modifies this`ledger, outbox, outbox.nodes
      ensures Valid() && Framed() && outbox.nodes == old(outbox.nodes) + [n]
      ensures Abs() == Stored(old(Abs()), mtype, id, qos, packet)
    {
      hide Outbox.Outbox.Valid;
      ghost var was := outbox.items;
      n := outbox.Enqueue(packet, [], id, mtype, qos, clock, |ledger|);
      assert packet + [] == packet;
      ledger := ledger + [Entry(id, mtype, qos, packet, InOutbox)];
    }

    predicate Overfull(len: nat)
      reads this, outbox
    {
      cfg.outboxLimit > 0 && len + outbox.size > cfg.outboxLimit
    }

    method PublishNow(id: nat, qos: nat, n: Outbox.Node?, w: WriteResult)
      requires Valid() && (qos > 0 ==> outbox.nodes != [] && n == outbox.nodes[|outbox.nodes| - 1])
      modifies this, outbox, outbox.nodes
      ensures Valid() && Framed() && (qos > 0 ==> old(outbox.items) != [])
      ensures Abs() == Session.PublishNow(cfg, old(Abs()), id, qos, w)
    {
      hide Outbox.Outbox.Linked, Session.SetPending, Session.SetTick, Session.Report, Session.Abort, Session.GiveUp, Send, Session.WriteOther;
      outbox.LinkedAt(0);
      if qos == 0 {
        WriteOther(PUBLISH, 0, w);
        if w != WriteOk { Abort(); }
      } else {
        TransmitLast(id, qos, n, w);
      }
    }

    method TransmitLast(id: nat, qos: nat, n: Outbox.Node, w: WriteResult)
      requires Valid() && qos > 0 && outbox.nodes != [] && n == outbox.nodes[|outbox.nodes| - 1]
      modifies this, outbox, outbox.nodes
      ensures Valid() && Framed() && old(outbox.items) != []
      ensures Abs() == Session.PublishNow(cfg, old(Abs()), id, qos, w)
    {
      hide Outbox.Outbox.Linked, Outbox.Outbox.Valid, Session.SetPending, Session.SetTick, Session.GiveUp, Send, Session.WriteOther;
      DistinctNodes(|outbox.nodes| - 1);
      WriteItem(n, |outbox.items| - 1, w);
      if w == WriteOk {
        SetTick(id, clock);
        SetPending(id, Transmitted);
      } else {
        GiveUp(w);
      }
    }

    method Publish(topic: seq<byte>, payload: seq<byte>, qos: nat, retain: nat, drawn: nat, w: WriteResult)
      requires Valid() && qos < 3 && retain < 2
      modifies this, outbox, outbox.nodes
      ensures Valid() && Framed() && Abs() == Publishing(cfg, old(Abs()), topic, payload, qos, retain, drawn, w)
    {
      hide Outbox.Outbox.Linked, Session.PublishNow, Wire.PublishPacket, Add;
      outbox.LinkedAt(0);
      if qos > 0 && Overfull(|payload|) { return; }
      var id := IdFor(qos, drawn);
      var n: Outbox.Node? := null;
      if qos > 0 {
        n := Store(PUBLISH, id, qos, Wire.PublishPacket(0, qos, retain, topic, id, payload));
        pendingQos := qos;
      }
      if st == Connected {
        PublishNow(id, qos, n, w);
      }
    }

    method Enqueue(topic: seq<byte>, payload: seq<byte>, qos: nat, retain: nat, drawn: nat, store: bool)
      requires Valid() && qos < 3 && retain < 2
      modifies this, outbox, outbox.nodes
      ensures Valid() && Framed() && Abs() == Enqueuing(cfg, old(Abs()), topic, payload, qos, retain, drawn, store)
    {
      hide Outbox.Outbox.Linked, Wire.PublishPacket, Add;
      if Overfull(|payload|) || !(qos > 0 || store) { return; }
      var id := IdFor(qos, drawn);
      var _ := Store(PUBLISH, id, qos, Wire.PublishPacket(0, qos, retain, topic, id, payload));
      pendingQos := qos;
    }

    /** Subscribing and unsubscribing. */
    method Ask(mtype: nat, packet: seq<byte>, drawn: nat, w: WriteResult)
      requires Valid()
      modifies this, outbox, outbox.nodes
      ensures Valid() && Framed() && Abs() == Asking(old(Abs()), mtype, packet, drawn, w)
    {
      hide Outbox.Outbox.Linked, SizeOf, Send, Add, Session.SetPending, Session.Report;
      outbox.LinkedAt(0);
      if st != Connected { return; }
      ghost var last := |outbox.items|;
      var n := Store(mtype, drawn, pendingQos, packet);
      SetPending(drawn, Transmitted);
      WriteItem(n, last, w);
      Report(w);
    }

    method Stop(w: WriteResult)
      modifies this`st, this`run, this`events, this`appConnected, this`writes
      ensures Abs() == (var s := old(Abs());
        if !s.run then s else (if s.st == Connected then Session.WriteOther(s, DISCONNECT, 0, w) else s).(run := false, st := Disconnected))
    {
      if run {
        if st == Connected { WriteOther(DISCONNECT, 0, w); }
        run, st := false, Disconnected;
      }
    }

    // ---- any step --------------------------------------------------------------------------

    method Do(step: Step)
      requires Valid() && Allowed(Abs(), step)
      modifies this, outbox, outbox.nodes
      ensures Valid() && Framed() && Abs() == Next(cfg, old(Abs()), step)
    {
      hide Outbox.Outbox.Linked, Outbox.Outbox.Valid, Next, Allowed;
      match step {
        case TaskIteration(input) => IterateStep(input);
        case TaskEnd => EndStep();
        case ApiPublish(_, _, _, _, _, _, _) => Request(step);
        case ApiEnqueue(_, _, _, _, _, _, _) => Request(step);
        case ApiSubscribe(_, _, _) => Request(step);
        case ApiUnsubscribe(_, _, _) => Request(step);
        case _ => Control(step);
      }
    }

    method IterateStep(input: TaskInput)
      requires Valid() && Allowed(Abs(), TaskIteration(input))
      modifies this, outbox, outbox.nodes
      ensures Valid() && Framed() && Abs() == Next(cfg, old(Abs()), TaskIteration(input))
    {
      hide Outbox.Outbox.Linked, Outbox.Outbox.Valid, Session.Iterate, PacketIdOk;
      Iterate(input);
    }

    method EndStep()
      requires Valid() && Allowed(Abs(), TaskEnd)
      modifies this, outbox, outbox.nodes
      ensures Valid() && Framed() && Abs() == Next(cfg, old(Abs()), TaskEnd)
    {
      hide Outbox.Outbox.Linked, Outbox.Outbox.Valid, Clear;
      EndTask();
    }

    /** Steps that leave outbox and ledger alone. */
    method Control(step: Step)
      requires Allowed(Abs(), step)
      requires step.Tick? || step.PollResult? || step.ApiDisconnect? || step.ApiReconnect? || step.ApiStop?
      modifies this`st, this`place, this`run, this`clock, this`waitTimeout, this`reconnectTick, this`waitPing, this`disconnectBit,
        this`reconnectBit, this`events, this`appConnected, this`writes
      ensures Abs() == Next(cfg, old(Abs()), step)
    {
      hide Session.Abort, Session.WriteOther, Session.Iterate, Publishing, Enqueuing, Asking, Clear, Full, Fresh, PacketIdOk, DupOf;
      match step {
        case Tick(ms) => clock := clock + ms;
        case PollResult(failed) =>
          if failed { Abort(); }
          place := LoopHead;
        case ApiDisconnect => disconnectBit := true;
        case ApiReconnect =>
          if st == WaitReconnect { waitTimeout, reconnectBit := 0, true; }
        case ApiStop(w) => Stop(w);
      }
    }

    /** The calls that bring messages. */
    method Request(step: Step)
      requires Valid() && Allowed(Abs(), step)
      requires step.ApiPublish? || step.ApiEnqueue? || step.ApiSubscribe? || step.ApiUnsubscribe?
      modifies this, outbox, outbox.nodes
      ensures Valid() && Framed() && Abs() == Next(cfg, old(Abs()), step)
    {
      hide Outbox.Outbox.Linked, Publishing, Enqueuing, Asking, SizeOf, Fresh, DupOf;
      match step {
        case ApiPublish(topic, payload, qos, retain, drawn, buildable, w) =>
          if buildable { Publish(topic, payload, qos, retain, drawn, w); }
        case ApiEnqueue(topic, payload, qos, retain, drawn, buildable, store) =>
          if buildable { Enqueue(topic, payload, qos, retain, drawn, store); }
        case ApiSubscribe(packet, drawn, w) =>
          if !Overfull(0) { Ask(SUBSCRIBE, packet, drawn, w); }
        case ApiUnsubscribe(packet, drawn, w) => Ask(UNSUBSCRIBE, packet, drawn, w);
      }
    }

    /** Any run of steps. */
    method Perform(steps: seq<Step>)
      requires Valid() && Runs(cfg, Abs(), steps)
      modifies this, outbox, outbox.nodes
      ensures Valid() && Framed() && Abs() == Exec(cfg, old(Abs()), steps)
    {
      hide Outbox.Outbox.Valid, Next, Allowed;
      assert steps[0..] == steps;
      for n := 0 to |steps|
        invariant Valid() && Framed()
        invariant Runs(cfg, Abs(), steps[n..]) && Exec(cfg, Abs(), steps[n..]) == Exec(cfg, old(Abs()), steps)
      {
        assert steps[n..][0] == steps[n] && steps[n..][1..] == steps[n + 1..];
        Do(steps[n]);
      }
    }
  }

  /** A client from its start through any run: what is proved of runs is true of its fields and of the linked outbox. */
  method Live(cfg: Config, steps: seq<Step>) returns (c: Client)
    requires Runs(cfg, Start, steps)
    ensures c.Valid() && c.Abs() == Exec(cfg, Start, steps)
    ensures c.outbox.size == SizeOf(c.outbox.items)
    ensures SessionProofs.PublishedIds(c.events) == SessionProofs.SettledIds(c.ledger)
    ensures forall n :: 0 <= n < |c.ledger| ==> (c.ledger[n].fate == InOutbox <==> n in Serials(c.outbox.items))
    ensures SessionLinks.WithoutStop(steps) ==> SessionLinks.Alternates(c.events) && (c.appConnected ==> c.st == Connected)
  {
    hide Outbox.Outbox.Linked, Exec, Runs, SessionLinks.Alternates;
    c := new Client(cfg);
    c.Perform(steps);
    SessionRuns.Accounting(cfg, steps);
    if SessionLinks.WithoutStop(steps) { SessionLinks.ConnectionsAlternate(cfg, steps); }
  }
}
