/** Connected and disconnected: what the application is told, what it remembers, and when silence ends a connection. */
module SessionLinks {
  import opened SessionCore
  import opened Session
  import opened OutboxSpec
  import Bytes
  import FixedHeader
  import Wire

  // ---- events about the connection --------------------------------------------------------------

  /** The last event about the connection said it is up. */
  predicate LastUp(events: seq<Event>) {
    events != [] &&
    var e := events[|events| - 1];
    e == NowConnected || (e != NowDisconnected && LastUp(events[..|events| - 1]))
  }

  /** No two CONNECTED events without a DISCONNECTED event between them. */
  predicate Alternates(events: seq<Event>) {
    forall i, j :: 0 <= i < j < |events| && events[i] == NowConnected && events[j] == NowConnected ==>
      exists k :: i < k < j && events[k] == NowDisconnected
  }

  lemma {:induction false} LastUpMeans(events: seq<Event>)
    ensures LastUp(events) <==>
      exists i :: 0 <= i < |events| && events[i] == NowConnected && forall k :: i < k < |events| ==> events[k] != NowDisconnected
  {
    if events != [] {
      var n := |events| - 1;
      var front := events[..n];
      LastUpMeans(front);
      if LastUp(events) {
        if events[n] != NowConnected {
          var i :| 0 <= i < n && front[i] == NowConnected && forall k :: i < k < n ==> front[k] != NowDisconnected;
          assert events[i] == NowConnected;
          assert forall k :: i < k < n ==> events[k] == front[k];
        }
      } else if events[n] != NowDisconnected {
        forall i | 0 <= i < n && events[i] == NowConnected
          ensures exists k :: i < k < |events| && events[k] == NowDisconnected
        {
          assert front[i] == NowConnected;
          var k :| i < k < n && front[k] == NowDisconnected;
          assert events[k] == NowDisconnected;
        }
      }
    }
  }

  lemma AlternatesMore(events: seq<Event>, e: Event)
    requires Alternates(events) && (e == NowConnected ==> !LastUp(events))
    ensures Alternates(events + [e])
    ensures LastUp(events + [e]) <==> e == NowConnected || (e != NowDisconnected && LastUp(events))
  {
    var more := events + [e];
    assert more[..|events|] == events;
    LastUpMeans(events);
    forall i, j | 0 <= i < j < |more| && more[i] == NowConnected && more[j] == NowConnected
      ensures exists k :: i < k < j && more[k] == NowDisconnected
    {
      if j < |events| {
        assert events[i] == NowConnected && events[j] == NowConnected;
        var k :| i < k < j && events[k] == NowDisconnected;
        assert more[k] == NowDisconnected;
      } else {
        assert events[i] == NowConnected;
        var k :| i < k < |events| && events[k] == NowDisconnected;
        assert more[k] == NowDisconnected;
      }
    }
  }

  // ---- the invariant of runs without a stop -------------------------------------------------------

  predicate LinkInv(s: State) {
    && Alternates(s.events)
    && (LastUp(s.events) ==> s.st == Connected)
    && (s.appConnected ==> s.st == Connected)
    && (!s.run ==> s.st != Connected)
  }

  /** A state that differs in nothing the invariant looks at. */
  predicate SameLink(s: State, t: State) {
    t.events == s.events && t.st == s.st && t.appConnected == s.appConnected && t.run == s.run
  }

  lemma DispatchLink(s: State, e: Event)
    requires LinkInv(s) && e != NowConnected
    ensures LinkInv(Dispatch(s, e)) && Dispatch(s, e).st == s.st
  {
    hide Alternates;
    AlternatesMore(s.events, e);
  }

  lemma AbortLink(cfg: Config, s: State)
    requires LinkInv(s)
    ensures var t := Abort(cfg, s); LinkInv(t) && !LastUp(t.events) && !t.appConnected
  {
    hide Alternates;
    AlternatesMore(s.events, NowDisconnected);
  }

  lemma ReportLink(s: State, w: WriteResult)
    requires LinkInv(s)
    ensures LinkInv(Report(s, w)) && Report(s, w).st == s.st
  {
    hide Alternates;
    DispatchLink(s, ErrorEvent);
  }

  lemma WriteOtherLink(s: State, mtype: nat, id: nat, w: WriteResult)
    requires LinkInv(s)
    ensures LinkInv(WriteOther(s, mtype, id, w)) && WriteOther(s, mtype, id, w).st == s.st
  {
    hide Alternates;
    DispatchLink(s.(core := Log(s.core, SessionCore.WroteOther(mtype, id))), ErrorEvent);
  }

  lemma GiveUpLink(cfg: Config, s: State, w: WriteResult)
    requires LinkInv(s)
    ensures LinkInv(GiveUp(cfg, s, w))
  {
    ReportLink(s, w);
    AbortLink(cfg, Report(s, w));
  }

  lemma {:induction false} PartsLink(s: State, n: nat)
    requires LinkInv(s)
    ensures LinkInv(Parts(s, n))
  {
    if n > 0 {
      PartsLink(s, n - 1);
      DispatchLink(Parts(s, n - 1), DataArrived);
    }
  }

  lemma PublishInLink(s: State, p: Packet, w: WriteResult)
    requires LinkInv(s) && p.Publish?
    ensures LinkInv(ProcessReceive(s, p, w).0) && ProcessReceive(s, p, w).0.st == s.st
  {
    hide LinkInv, Dispatch, WriteOther;
    var t := Parts(s, p.parts);
    PartsLink(s, p.parts);
    DispatchLink(t, ErrorEvent);
    WriteOtherLink(t, FixedHeader.PUBACK, p.id, w);
    WriteOtherLink(t, FixedHeader.PUBREC, p.id, w);
  }

  lemma ReceiveLink(s: State, p: Packet, w: WriteResult)
    requires LinkInv(s)
    ensures LinkInv(ProcessReceive(s, p, w).0) && ProcessReceive(s, p, w).0.st == s.st
  {
    hide LinkInv, IndexOfMatch, IndexOfId;
    SameLinkInv(s, s);
    match p
    case ReceiveFailed(_) => DispatchLink(s, ErrorEvent);
    case Suback(id, _) =>
      SettleLink(s, id, FixedHeader.SUBSCRIBE, Granted, Subscribed);
      SameLinkInv(s, ProcessReceive(s, Suback(id, false), w).0);
    case Unsuback(id) => SettleLink(s, id, FixedHeader.UNSUBSCRIBE, Granted, Unsubscribed);
    case Publish(_, _, _, _, _) => PublishInLink(s, p, w);
    case Puback(id) => SettleLink(s, id, FixedHeader.PUBLISH, Fate.Published, MessagePublished(id));
    case Pubcomp(id) => SettleLink(s, id, FixedHeader.PUBLISH, Fate.Published, MessagePublished(id));
    case Pubrec(id) =>
      var t := s.(core := Log(SetPending(s.core, id, Acknowledged), WrotePubrel(id)));
      SameLinkInv(s, t);
      ReportLink(t, w);
    case Pubrel(id) => WriteOtherLink(s, FixedHeader.PUBCOMP, id, w);
    case _ => SameLinkInv(s, ProcessReceive(s, p, w).0);
  }

  lemma SettleLink(s: State, id: nat, mtype: nat, fate: Fate, e: Event)
    requires LinkInv(s) && e != NowConnected
    ensures LinkInv(Settle(s, id, mtype, fate, e)) && Settle(s, id, mtype, fate, e).st == s.st
  {
    hide LinkInv, IndexOfMatch;
    var i := IndexOfMatch(s.core.outbox, id, mtype);
    if i < |s.core.outbox| {
      var t := s.(core := Drop(s.core, i, fate));
      SameLinkInv(s, t);
      DispatchLink(t, e);
    }
  }

  lemma SameLinkInv(s: State, t: State)
    requires LinkInv(s) && SameLink(s, t)
    ensures LinkInv(t)
  {
  }

  lemma ResendLink(cfg: Config, s: State, input: TaskInput)
    requires LinkInv(s)
    ensures LinkInv(Resend(cfg, s, input))
  {
    hide LinkInv, Send, Drop, IndexOfPending;
    var s1 := if s.lastRetransmit == 0 then s.(lastRetransmit := s.clock) else s;
    SameLinkInv(s, s1);
    var i := IndexOfPending(s1.core.outbox, Queued);
    if i < |s1.core.outbox| {
      ResendItemLink(cfg, s1, i, input.resendWrite);
      SameLinkInv(ResendItem(cfg, s1, i, input.resendWrite).0, ResendQueued(cfg, s1, i, input.resendWrite));
    } else {
      RetransmitLink(cfg, s1, input);
    }
  }

  lemma ResendItemLink(cfg: Config, s: State, i: nat, w: WriteResult)
    requires LinkInv(s) && i < |s.core.outbox|
    ensures LinkInv(ResendItem(cfg, s, i, w).0)
  {
    hide LinkInv, Send;
    var t := s.(core := Send(s.core, i, w == WriteOk), pendingQos := s.core.outbox[i].qos);
    SameLinkInv(s, t);
    GiveUpLink(cfg, t, w);
  }

  lemma RetransmitLink(cfg: Config, s: State, input: TaskInput)
    requires LinkInv(s)
    ensures LinkInv(Retransmit(cfg, s, input))
  {
    hide LinkInv, Send, IndexOfPending;
    var s1 := s.(lastRetransmit := s.clock);
    SameLinkInv(s, s1);
    var i := IndexOfPending(s1.core.outbox, Transmitted);
    var s2 := if Due(cfg, s1, i) then ResendItem(cfg, s1, i, input.resendWrite).0 else s1;
    if Due(cfg, s1, i) { ResendItemLink(cfg, s1, i, input.resendWrite); }
    var j := IndexOfPending(s2.core.outbox, Acknowledged);
    if Due(cfg, s2, j) {
      var t := s2.(core := Log(s2.core, WrotePubrel(s2.core.outbox[j].id)), pendingQos := s2.core.outbox[j].qos);
      SameLinkInv(s2, t);
      GiveUpLink(cfg, t, input.pubrelWrite);
    }
  }

  lemma KeepaliveLink(cfg: Config, s: State, w: WriteResult)
    requires LinkInv(s)
    ensures LinkInv(ProcessKeepalive(cfg, s, w).0)
  {
    hide LinkInv, HasTimedOut;
    AbortLink(cfg, s);
    var t := WriteOther(s, FixedHeader.PINGREQ, 0, w);
    WriteOtherLink(s, FixedHeader.PINGREQ, 0, w);
    AbortLink(cfg, t);
    SameLinkInv(t, t.(waitPing := true));
  }

  lemma IterateLink(cfg: Config, s: State, input: TaskInput)
    requires LinkInv(s) && s.run
    ensures LinkInv(Iterate(cfg, s, input))
  {
    hide Alternates, Sweep, HasTimedOut;
    var s1 := s.(core := Sweep(s.core, s.clock, cfg.expireMs));
    match s.st
    case Init => InitLink(cfg, s1, input.connect);
    case Connected => ConnectedLink(cfg, s1, input);
    case _ =>
  }

  lemma InitLink(cfg: Config, s: State, c: ConnectResult)
    requires LinkInv(s) && s.st == Init && s.run
    ensures LinkInv(IterateInit(cfg, s, c))
  {
    hide Alternates;
    var s1 := s.(disconnectBit := false, reconnectBit := false);
    var s2 := Dispatch(s1, BeforeConnect);
    DispatchLink(s1, BeforeConnect);
    match c
    case NoTransport =>
    case TransportRefused =>
      DispatchLink(s2, ErrorEvent);
      AbortLink(cfg, Dispatch(s2, ErrorEvent));
    case Refused(reported) =>
      var s3 := s2.(waitPing := false, core := Log(s2.core, SessionCore.WroteOther(FixedHeader.CONNECT, 0)));
      DispatchLink(s3, ErrorEvent);
      AbortLink(cfg, if reported then Dispatch(s3, ErrorEvent) else s3);
    case Accepted =>
      AlternatesMore(s2.events, NowConnected);
  }

  lemma ConnectedLink(cfg: Config, s: State, input: TaskInput)
    requires LinkInv(s) && s.run
    ensures LinkInv(IterateConnected(cfg, s, input))
  {
    hide Alternates, LastUp, ProcessReceive, Resend, ProcessKeepalive, HasTimedOut;
    if s.disconnectBit {
      var t := s.(disconnectBit := false);
      WriteOtherLink(t, FixedHeader.DISCONNECT, 0, input.disconnectWrite);
      AbortLink(cfg, WriteOther(t, FixedHeader.DISCONNECT, 0, input.disconnectWrite));
    } else {
      var (s1, received) := ProcessReceive(s, input.packet, input.replyWrite);
      ReceiveLink(s, input.packet, input.replyWrite);
      if received {
        ResendLink(cfg, s1, input);
        var r := Resend(cfg, s1, input);
        KeepaliveLink(cfg, r, input.pingWrite);
        AbortLink(cfg, ProcessKeepalive(cfg, r, input.pingWrite).0);
      } else {
        AbortLink(cfg, s1);
      }
    }
  }

  lemma PublishLink(cfg: Config, s: State, id: nat, qos: nat, w: WriteResult)
    requires LinkInv(s) && (qos > 0 ==> s.core.outbox != [])
    ensures LinkInv(PublishNow(cfg, s, id, qos, w))
  {
    hide LinkInv, Send, IndexOfId;
    WriteOtherLink(s, FixedHeader.PUBLISH, 0, w);
    AbortLink(cfg, WriteOther(s, FixedHeader.PUBLISH, 0, w));
    if qos > 0 {
      var t := s.(core := Send(s.core, |s.core.outbox| - 1, w == WriteOk));
      SameLinkInv(s, t);
      GiveUpLink(cfg, t, w);
      SameLinkInv(t, t.(core := SetPending(SetTick(t.core, id, t.clock), id, Transmitted)));
    }
  }

  lemma NextLink(cfg: Config, s: State, step: Step)
    requires LinkInv(s) && Allowed(s, step) && !step.ApiStop?
    ensures LinkInv(Next(cfg, s, step))
  {
    hide Alternates, LastUp, Iterate, PublishNow, Send, Wire.PublishPacket;
    match step
    case TaskIteration(input) => IterateLink(cfg, s, input);
    case PollResult(failed) => AbortLink(cfg, s);
    case ApiPublish(topic, payload, qos, retain, drawn, buildable, w) =>
      var id := IdFor(qos, drawn);
      if qos > 0 {
        PublishLink(cfg, Stored(s, FixedHeader.PUBLISH, id, qos, Wire.PublishPacket(0, qos, retain, topic, id, payload)).(pendingQos := qos), id, qos, w);
      } else {
        PublishLink(cfg, s, id, qos, w);
      }
    case ApiSubscribe(packet, drawn, w) => AskingLink(s, FixedHeader.SUBSCRIBE, packet, drawn, w);
    case ApiUnsubscribe(packet, drawn, w) => AskingLink(s, FixedHeader.UNSUBSCRIBE, packet, drawn, w);
    case _ =>
  }

  lemma AskingLink(s: State, mtype: nat, packet: seq<Bytes.byte>, drawn: nat, w: WriteResult)
    requires LinkInv(s)
    ensures LinkInv(Asking(s, mtype, packet, drawn, w))
  {
    hide LinkInv, Send, IndexOfId;
    if s.st == Connected {
      var s1 := Stored(s, mtype, drawn, s.pendingQos, packet);
      var t := s1.(core := Send(SetPending(s1.core, drawn, Transmitted), |s.core.outbox|, w == WriteOk));
      SameLinkInv(s, t);
      ReportLink(t, w);
    }
  }

  // ---- results ---------------------------------------------------------------------------------------

  predicate WithoutStop(steps: seq<Step>) {
    forall i :: 0 <= i < |steps| ==> !steps[i].ApiStop?
  }

  lemma {:induction false} RunLink(cfg: Config, s: State, steps: seq<Step>)
    requires LinkInv(s) && Runs(cfg, s, steps) && WithoutStop(steps)
    ensures LinkInv(Exec(cfg, s, steps))
    decreases |steps|
  {
    if steps != [] {
      NextLink(cfg, s, steps[0]);
      RunLink(cfg, Next(cfg, s, steps[0]), steps[1..]);
    }
  }

  /** In every run without a stop the application sees connections begin and end in turn, and while its own
      flag is up the client is connected. */
  lemma ConnectionsAlternate(cfg: Config, past: seq<Step>)
    requires Runs(cfg, Start, past) && WithoutStop(past)
    ensures var s := Exec(cfg, Start, past); Alternates(s.events) && (s.appConnected ==> s.st == Connected)
  {
    RunLink(cfg, Start, past);
  }

  /** A stop sends no DISCONNECTED event: it leaves the flag up exactly if it was up and writing DISCONNECT
      did not fail with an error event. */
  lemma StopLeavesFlag(cfg: Config, past: seq<Step>, w: WriteResult)
    requires Runs(cfg, Start, past) && WithoutStop(past)
    ensures var s := Exec(cfg, Start, past); var t := Next(cfg, s, ApiStop(w));
      s.run ==> t.st == Disconnected && (t.appConnected <==> s.appConnected && w != WriteError)
  {
    hide Exec, Runs, Iterate;
    RunLink(cfg, Start, past);
  }
}
