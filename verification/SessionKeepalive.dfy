/** Keepalive: when silence ends a connection, and that nothing else about pings does. */
module SessionKeepalive {
  import opened SessionCore
  import opened Session
  import opened OutboxSpec
  import Bytes
  import FixedHeader
  import Wire

  const TICK_LIMIT := 0x8000_0000_0000_0000

  /** The connection was accepted or answered a ping in this step. */
  predicate SignOfLife(s: State, step: Step) {
    step.TaskIteration? &&
    ((s.st == Init && step.input.connect == Accepted) || (s.st == Connected && !s.disconnectBit && step.input.packet == Pingresp))
  }

  /** Time of the last task iteration. */
  function Stamp(s: State, step: Step, last: nat): nat {
    if step.TaskIteration? then s.clock else last
  }

  /** While connected, iterations are at most `d` apart; pings can be written; the clock is far from its limit. */
  predicate Punctual(cfg: Config, s: State, steps: seq<Step>, last: nat, d: nat)
    requires Runs(cfg, s, steps)
    decreases |steps|
  {
    && (s.st == Connected ==> s.clock <= last + d)
    && s.clock + cfg.keepaliveMs < TICK_LIMIT
    && (steps != [] ==>
         && (steps[0].TaskIteration? ==> steps[0].input.pingWrite == WriteOk)
         && Punctual(cfg, Next(cfg, s, steps[0]), steps[1..], Stamp(s, steps[0], last), d))
  }

  /** At the last iteration the connection was not yet silent for long enough to be dropped, nor, without a
      ping on its way, for half as long. */
  predicate NotYetDue(cfg: Config, s: State, last: nat) {
    s.st == Connected ==>
      && s.keepaliveTick <= last <= s.clock
      && last < s.keepaliveTick + cfg.keepaliveMs
      && (!s.waitPing ==> last < s.keepaliveTick + cfg.keepaliveMs / 2)
  }

  /** What the parts of an iteration do to the fields keepalive looks at. */
  predicate SamePulse(s: State, t: State) {
    t.clock == s.clock && t.keepaliveTick == s.keepaliveTick && (t.st == Connected ==> s.st == Connected && t.waitPing == s.waitPing)
    && (t.st == s.st || t.st == WaitReconnect)
  }

  /** Nothing but the outbox and what the application has heard differs. */
  predicate SameControl(s: State, t: State) {
    && t.clock == s.clock && t.st == s.st && t.refreshTick == s.refreshTick
    && t.keepaliveTick == s.keepaliveTick && t.waitPing == s.waitPing
  }

  lemma SettleControl(s: State, id: nat, mtype: nat, fate: Fate, e: Event)
    ensures SameControl(s, Settle(s, id, mtype, fate, e))
  {
    hide IndexOfMatch, Drop, Dispatch;
    var i := IndexOfMatch(s.core.outbox, id, mtype);
    if i < |s.core.outbox| { DispatchControl(s.(core := Drop(s.core, i, fate)), e); }
  }

  lemma DispatchControl(s: State, e: Event)
    ensures SameControl(s, Dispatch(s, e))
  {
  }

  lemma WriteControl(s: State, c: Core, mtype: nat, id: nat, w: WriteResult)
    ensures SameControl(s, Report(s.(core := c), w)) && SameControl(s, WriteOther(s, mtype, id, w))
  {
    hide Log;
  }

  lemma SubackControl(s: State, id: nat, readable: bool, w: WriteResult)
    ensures SameControl(s, ProcessReceive(s, Suback(id, readable), w).0)
  {
    hide IndexOfMatch, Drop, Settle;
    SettleControl(s, id, FixedHeader.SUBSCRIBE, Granted, Subscribed);
  }

  lemma PublishControl(s: State, id: nat, qos: nat, parts: nat, delivered: bool, reported: bool, w: WriteResult)
    ensures SameControl(s, ProcessReceive(s, Packet.Publish(id, qos, parts, delivered, reported), w).0)
  {
    hide Parts, WriteOther, Dispatch;
    WriteControl(Parts(s, parts), s.core, FixedHeader.PUBACK, id, w);
    WriteControl(Parts(s, parts), s.core, FixedHeader.PUBREC, id, w);
  }

  lemma ReceivePulse(s: State, p: Packet, w: WriteResult)
    ensures var t := ProcessReceive(s, p, w).0;
      && t.clock == s.clock && t.st == s.st && t.refreshTick == s.refreshTick
      && t.keepaliveTick == (if p == Pingresp then s.clock else s.keepaliveTick)
      && t.waitPing == (if p == Pingresp then false else s.waitPing)
  {
    hide Settle, Report, WriteOther, Dispatch, Parts, Log, SetPending, Drop, IndexOfMatch;
    match p
    case Suback(id, readable) => SubackControl(s, id, readable, w);
    case Unsuback(id) => SettleControl(s, id, FixedHeader.UNSUBSCRIBE, Granted, Unsubscribed);
    case Publish(id, qos, parts, delivered, reported) => PublishControl(s, id, qos, parts, delivered, reported, w);
    case Puback(id) => SettleControl(s, id, FixedHeader.PUBLISH, Fate.Published, MessagePublished(id));
    case Pubcomp(id) => SettleControl(s, id, FixedHeader.PUBLISH, Fate.Published, MessagePublished(id));
    case Pubrec(id) => WriteControl(s, Log(SetPending(s.core, id, Acknowledged), WrotePubrel(id)), FixedHeader.PUBREL, id, w);
    case Pubrel(id) => WriteControl(s, s.core, FixedHeader.PUBCOMP, id, w);
    case _ =>
  }

  lemma ResendPulse(cfg: Config, s: State, input: TaskInput)
    requires s.st == Connected
    ensures SamePulse(s, Resend(cfg, s, input))
  {
    hide Send, IndexOfPending, HasTimedOut, ResendItem, Retransmit, Drop, SetPending;
    var s1 := if s.lastRetransmit == 0 then s.(lastRetransmit := s.clock) else s;
    var i := IndexOfPending(s1.core.outbox, Queued);
    if i < |s1.core.outbox| {
      ItemPulse(cfg, s1, i, input.resendWrite);
    } else {
      RetransmitPulse(cfg, s1, input);
    }
  }

  lemma RetransmitPulse(cfg: Config, s: State, input: TaskInput)
    requires s.st == Connected
    ensures SamePulse(s, Retransmit(cfg, s, input))
  {
    hide Send, IndexOfPending, ResendItem, ResendPubrel, Due;
    var s1 := s.(lastRetransmit := s.clock);
    var i := IndexOfPending(s1.core.outbox, Transmitted);
    if Due(cfg, s1, i) {
      DueIndex(cfg, s1, i);
      ItemPulse(cfg, s1, i, input.resendWrite);
    }
    var s2 := if Due(cfg, s1, i) then ResendItem(cfg, s1, i, input.resendWrite).0 else s1;
    var j := IndexOfPending(s2.core.outbox, Acknowledged);
    if Due(cfg, s2, j) {
      DueIndex(cfg, s2, j);
      PubrelPulse(cfg, s2, j, input.pubrelWrite);
    }
  }

  lemma DueIndex(cfg: Config, s: State, i: nat)
    requires Due(cfg, s, i)
    ensures i < |s.core.outbox|
  {
  }

  lemma PubrelPulse(cfg: Config, s: State, i: nat, w: WriteResult)
    requires i < |s.core.outbox|
    ensures SamePulse(s, ResendPubrel(cfg, s, i, w))
  {
  }

  lemma ItemPulse(cfg: Config, s: State, i: nat, w: WriteResult)
    requires s.st == Connected && i < |s.core.outbox|
    ensures SamePulse(s, ResendItem(cfg, s, i, w).0)
  {
    hide Send;
  }

  /** Keepalive drops a connection exactly when a ping has gone unanswered for the whole time, or the ping due
      after half of it cannot be written. */
  lemma DropsExactly(cfg: Config, s: State, w: WriteResult)
    requires s.keepaliveTick <= s.clock && s.clock + cfg.keepaliveMs < TICK_LIMIT
    ensures !ProcessKeepalive(cfg, s, w).1 <==>
      cfg.keepaliveMs > 0 &&
      if s.waitPing then s.keepaliveTick + cfg.keepaliveMs <= s.clock
      else s.keepaliveTick + cfg.keepaliveMs / 2 <= s.clock && w != WriteOk
  {
    HasTimedOutExact(s.keepaliveTick, cfg.keepaliveMs, s.clock);
    HasTimedOutExact(s.keepaliveTick, cfg.keepaliveMs / 2, s.clock);
  }

  /** A PINGREQ goes out exactly when none is waited for and half the keepalive time has passed; it is waited for from then on
      if the write succeeds, until the whole time has passed. */
  lemma PingsExactly(cfg: Config, s: State, w: WriteResult)
    requires s.keepaliveTick <= s.clock && s.clock + cfg.keepaliveMs < TICK_LIMIT
    ensures var t := ProcessKeepalive(cfg, s, w).0;
      var due := cfg.keepaliveMs > 0 && !s.waitPing && s.keepaliveTick + cfg.keepaliveMs / 2 <= s.clock;
      && t.core == s.core.(writes := s.core.writes + (if due then [WroteOther(12, 0)] else []))
      && (due ==> (t.waitPing <==> w == WriteOk))
      && (!due ==> (t.waitPing <==> s.waitPing && (cfg.keepaliveMs == 0 || s.clock < s.keepaliveTick + cfg.keepaliveMs)))
  {
    assert s.core.writes + [] == s.core.writes;
    HasTimedOutExact(s.keepaliveTick, cfg.keepaliveMs, s.clock);
    HasTimedOutExact(s.keepaliveTick, cfg.keepaliveMs / 2, s.clock);
  }

  /** A connection is given up for a fresh one exactly when there is a refresh time and it has passed since connecting. */
  lemma RefreshesExactly(cfg: Config, s: State)
    requires s.refreshTick + cfg.refreshMs < TICK_LIMIT && s.clock < TICK_LIMIT
    ensures var t := Refresh(cfg, s);
      if cfg.refreshMs > 0 && s.refreshTick + cfg.refreshMs <= s.clock
      then t.st == Init && t.core == s.core && t.events == s.events + [NowDisconnected]
      else t == s
  {
    HasTimedOutExact(s.refreshTick, cfg.refreshMs, s.clock);
  }

  lemma ConnectedPulse(cfg: Config, s: State, input: TaskInput, last: nat, d: nat)
    requires s.st == Connected && NotYetDue(cfg, s, last) && s.clock <= last + d && d <= cfg.keepaliveMs / 2
    requires s.clock + cfg.keepaliveMs < TICK_LIMIT && cfg.keepaliveMs >= 2 && input.pingWrite == WriteOk
    ensures NotYetDue(cfg, IterateConnected(cfg, s, input), s.clock)
    ensures IterateConnected(cfg, s, input).clock == s.clock
    ensures IterateConnected(cfg, s, input).keepaliveTick == if SignOfLife(s, TaskIteration(input)) then s.clock else s.keepaliveTick
  {
    hide ProcessReceive, Resend, HasTimedOut;
    if !s.disconnectBit {
      var (s1, received) := ProcessReceive(s, input.packet, input.replyWrite);
      ReceivePulse(s, input.packet, input.replyWrite);
      ReceivedPings(s, input);
      if received {
        var r := Resend(cfg, s1, input);
        ResendPulse(cfg, s1, input);
        HasTimedOutExact(r.keepaliveTick, cfg.keepaliveMs, r.clock);
        HasTimedOutExact(r.keepaliveTick, cfg.keepaliveMs / 2, r.clock);
      }
    }
  }

  lemma ReceivedPings(s: State, input: TaskInput)
    ensures input.packet == Pingresp ==> ProcessReceive(s, input.packet, input.replyWrite).1
  {
  }

  lemma InitPulse(cfg: Config, s: State, c: ConnectResult)
    requires s.st == Init && cfg.keepaliveMs >= 2
    ensures NotYetDue(cfg, IterateInit(cfg, s, c), s.clock)
    ensures IterateInit(cfg, s, c).clock == s.clock
    ensures IterateInit(cfg, s, c).keepaliveTick == if c == Accepted then s.clock else s.keepaliveTick
  {
  }

  lemma IteratePulse(cfg: Config, s: State, input: TaskInput, last: nat, d: nat)
    requires NotYetDue(cfg, s, last) && (s.st == Connected ==> s.clock <= last + d) && d <= cfg.keepaliveMs / 2
    requires s.clock + cfg.keepaliveMs < TICK_LIMIT && cfg.keepaliveMs >= 2 && input.pingWrite == WriteOk
    ensures NotYetDue(cfg, Iterate(cfg, s, input), s.clock)
    ensures Iterate(cfg, s, input).keepaliveTick == if SignOfLife(s, TaskIteration(input)) then s.clock else s.keepaliveTick
  {
    hide IterateConnected, IterateInit, Sweep;
    var s1 := s.(core := Sweep(s.core, s.clock, cfg.expireMs));
    match s.st
    case Connected => ConnectedPulse(cfg, s1, input, last, d);
    case Init => InitPulse(cfg, s1, input.connect);
    case _ =>
  }

  lemma NextPulse(cfg: Config, s: State, step: Step, last: nat, d: nat)
    requires Allowed(s, step) && NotYetDue(cfg, s, last) && (s.st == Connected ==> s.clock <= last + d) && d <= cfg.keepaliveMs / 2
    requires s.clock + cfg.keepaliveMs < TICK_LIMIT && cfg.keepaliveMs >= 2
    requires step.TaskIteration? ==> step.input.pingWrite == WriteOk
    ensures NotYetDue(cfg, Next(cfg, s, step), Stamp(s, step, last))
    ensures Next(cfg, s, step).keepaliveTick == if SignOfLife(s, step) then s.clock else s.keepaliveTick
  {
    hide Iterate, Publishing, Enqueuing, Asking, Clear, Full;
    match step
    case TaskIteration(input) => IteratePulse(cfg, s, input, last, d);
    case ApiPublish(topic, payload, qos, retain, drawn, _, w) => PublishingPulse(cfg, s, topic, payload, qos, retain, drawn, w);
    case ApiEnqueue(topic, payload, qos, retain, drawn, _, store) => EnqueuingPulse(cfg, s, topic, payload, qos, retain, drawn, store);
    case ApiSubscribe(packet, drawn, w) => SubscribingPulse(s, FixedHeader.SUBSCRIBE, packet, drawn, w);
    case ApiUnsubscribe(packet, drawn, w) => SubscribingPulse(s, FixedHeader.UNSUBSCRIBE, packet, drawn, w);
    case _ =>
  }

  lemma PublishingPulse(cfg: Config, s: State, topic: seq<Bytes.byte>, payload: seq<Bytes.byte>, qos: nat, retain: nat, drawn: nat, w: WriteResult)
    requires qos < 3 && retain < 2
    ensures SamePulse(s, Publishing(cfg, s, topic, payload, qos, retain, drawn, w))
  {
    hide Add, Full, Wire.PublishPacket, PublishNow;
    if !(qos > 0 && Full(cfg, s, |payload|)) {
      var id := IdFor(qos, drawn);
      var s1 := if qos > 0 then Stored(s, FixedHeader.PUBLISH, id, qos, Wire.PublishPacket(0, qos, retain, topic, id, payload)).(pendingQos := qos) else s;
      StoredSome(s, FixedHeader.PUBLISH, id, qos, Wire.PublishPacket(0, qos, retain, topic, id, payload));
      if s1.st == Connected { PublishNowPulse(cfg, s1, id, qos, w); }
    }
  }

  lemma StoredSome(s: State, mtype: nat, id: nat, qos: nat, packet: seq<Bytes.byte>)
    ensures Stored(s, mtype, id, qos, packet).core.outbox != []
  {
  }

  lemma PublishNowPulse(cfg: Config, s: State, id: nat, qos: nat, w: WriteResult)
    requires s.st == Connected && (qos > 0 ==> s.core.outbox != [])
    ensures SamePulse(s, PublishNow(cfg, s, id, qos, w))
  {
    hide Send, SetPending, SetTick;
  }

  lemma EnqueuingPulse(cfg: Config, s: State, topic: seq<Bytes.byte>, payload: seq<Bytes.byte>, qos: nat, retain: nat, drawn: nat, store: bool)
    requires qos < 3 && retain < 2
    ensures SamePulse(s, Enqueuing(cfg, s, topic, payload, qos, retain, drawn, store))
  {
    hide Add, Full, Wire.PublishPacket;
  }

  lemma SubscribingPulse(s: State, mtype: nat, packet: seq<Bytes.byte>, drawn: nat, w: WriteResult)
    ensures SamePulse(s, Asking(s, mtype, packet, drawn, w))
  {
    hide Send, Mark, IndexOfId;
  }

  /** The tick is the time of the last sign of life. */
  function LastSign(cfg: Config, s: State, steps: seq<Step>, sign: nat): nat
    requires Runs(cfg, s, steps)
    decreases |steps|
  {
    if steps == [] then sign
    else LastSign(cfg, Next(cfg, s, steps[0]), steps[1..], if SignOfLife(s, steps[0]) then s.clock else sign)
  }

  lemma {:induction false} RunPulse(cfg: Config, s: State, steps: seq<Step>, last: nat, d: nat)
    requires Runs(cfg, s, steps) && Punctual(cfg, s, steps, last, d) && NotYetDue(cfg, s, last)
    requires cfg.keepaliveMs >= 2 && d <= cfg.keepaliveMs / 2
    ensures var t := Exec(cfg, s, steps);
      && (t.st == Connected ==> t.keepaliveTick <= t.clock < t.keepaliveTick + cfg.keepaliveMs + d)
      && t.clock + cfg.keepaliveMs < TICK_LIMIT
      && t.keepaliveTick == LastSign(cfg, s, steps, s.keepaliveTick)
    decreases |steps|
  {
    if steps != [] {
      NextPulse(cfg, s, steps[0], last, d);
      RunPulse(cfg, Next(cfg, s, steps[0]), steps[1..], Stamp(s, steps[0], last), d);
    }
  }

  /** In every punctual run a connection that has given no sign of life for the keepalive time and `d` more is
      no longer connected. */
  lemma SilenceEnds(cfg: Config, past: seq<Step>, d: nat)
    requires Runs(cfg, Start, past) && Punctual(cfg, Start, past, 0, d)
    requires cfg.keepaliveMs >= 2 && d <= cfg.keepaliveMs / 2
    ensures var s := Exec(cfg, Start, past);
      s.st == Connected ==> s.clock < LastSign(cfg, Start, past, 0) + cfg.keepaliveMs + d
  {
    RunPulse(cfg, Start, past, 0, d);
  }

  predicate RefreshDue(cfg: Config, s: State) {
    cfg.refreshMs > 0 && HasTimedOut(s.refreshTick, cfg.refreshMs, s.clock)
  }

  /** The packet of the iteration, received after the sweep, gives no reason to end the connection. */
  predicate ReceivedWell(cfg: Config, s: State, input: TaskInput) {
    ProcessReceive(s.(core := Sweep(s.core, s.clock, cfg.expireMs)), input.packet, input.replyWrite).1
  }

  /** And keepalive never ends one sooner than the keepalive time after its last sign of life: in a punctual run, an iteration
      with nothing else against the connection leaves it connected. */
  lemma NeverEarly(cfg: Config, past: seq<Step>, d: nat, input: TaskInput)
    requires Runs(cfg, Start, past) && Punctual(cfg, Start, past, 0, d)
    requires cfg.keepaliveMs >= 2 && d <= cfg.keepaliveMs / 2
    requires input.pingWrite == input.resendWrite == input.pubrelWrite == WriteOk
    requires var s := Exec(cfg, Start, past);
      && s.st == Connected && !s.disconnectBit && ReceivedWell(cfg, s, input) && !RefreshDue(cfg, s)
      && s.clock < LastSign(cfg, Start, past, 0) + cfg.keepaliveMs
    ensures Iterate(cfg, Exec(cfg, Start, past), input).st == Connected
  {
    hide Resend, ProcessReceive, ProcessKeepalive, HasTimedOut, Sweep, Exec, Runs, LastSign, Punctual;
    RunPulse(cfg, Start, past, 0, d);
    StaysUp(cfg, Exec(cfg, Start, past), input);
  }

  lemma StaysUp(cfg: Config, s: State, input: TaskInput)
    requires s.st == Connected && !s.disconnectBit && ReceivedWell(cfg, s, input) && !RefreshDue(cfg, s)
    requires input.pingWrite == input.resendWrite == input.pubrelWrite == WriteOk
    requires s.keepaliveTick <= s.clock < s.keepaliveTick + cfg.keepaliveMs && s.clock + cfg.keepaliveMs < TICK_LIMIT
    ensures Iterate(cfg, s, input).st == Connected
  {
    hide Resend, ProcessReceive, ProcessKeepalive, HasTimedOut, Sweep;
    var s1 := s.(core := Sweep(s.core, s.clock, cfg.expireMs));
    var s2 := ProcessReceive(s1, input.packet, input.replyWrite).0;
    ReceivePulse(s1, input.packet, input.replyWrite);
    var s3 := Resend(cfg, s2, input);
    ResendPulse(cfg, s2, input);
    ResendWell(cfg, s2, input);
    DropsExactly(cfg, s3, input.pingWrite);
    KeepaliveWell(cfg, s3, input.pingWrite);
  }

  /** With nothing else against it, a connection is ended by an iteration exactly when its refresh time has come, and then a new
      one is attempted at once. */
  lemma RefreshEnds(cfg: Config, s: State, input: TaskInput)
    requires s.st == Connected && !s.disconnectBit && ReceivedWell(cfg, s, input)
    requires input.pingWrite == input.resendWrite == input.pubrelWrite == WriteOk
    requires s.keepaliveTick <= s.clock < s.keepaliveTick + cfg.keepaliveMs && s.clock + cfg.keepaliveMs < TICK_LIMIT
    requires s.refreshTick + cfg.refreshMs < TICK_LIMIT
    ensures Iterate(cfg, s, input).st == if cfg.refreshMs > 0 && s.refreshTick + cfg.refreshMs <= s.clock then Init else Connected
  {
    hide Resend, ProcessReceive, ProcessKeepalive, HasTimedOut, Sweep, Refresh;
    var s1 := s.(core := Sweep(s.core, s.clock, cfg.expireMs));
    var s2 := ProcessReceive(s1, input.packet, input.replyWrite).0;
    ReceivePulse(s1, input.packet, input.replyWrite);
    var s3 := Resend(cfg, s2, input);
    ResendPulse(cfg, s2, input);
    ResendWell(cfg, s2, input);
    DropsExactly(cfg, s3, input.pingWrite);
    KeepaliveWell(cfg, s3, input.pingWrite);
    RefreshesExactly(cfg, ProcessKeepalive(cfg, s3, input.pingWrite).0);
  }

  lemma KeepaliveWell(cfg: Config, s: State, w: WriteResult)
    ensures var (t, alive) := ProcessKeepalive(cfg, s, w);
      alive ==> t.st == s.st && t.refreshTick == s.refreshTick && t.clock == s.clock
  {
    hide HasTimedOut;
  }

  lemma ResendWell(cfg: Config, s: State, input: TaskInput)
    requires input.resendWrite == input.pubrelWrite == WriteOk
    ensures Resend(cfg, s, input).st == s.st && Resend(cfg, s, input).refreshTick == s.refreshTick
  {
    hide Send, IndexOfPending, HasTimedOut, Drop, SetPending, Due, Retransmit;
    var s1 := if s.lastRetransmit == 0 then s.(lastRetransmit := s.clock) else s;
    RetransmitWell(cfg, s1, input);
  }

  lemma RetransmitWell(cfg: Config, s: State, input: TaskInput)
    requires input.resendWrite == input.pubrelWrite == WriteOk
    ensures Retransmit(cfg, s, input).st == s.st && Retransmit(cfg, s, input).refreshTick == s.refreshTick
  {
    hide Send, IndexOfPending, Due;
    var s1 := s.(lastRetransmit := s.clock);
    var i := IndexOfPending(s1.core.outbox, Transmitted);
    if Due(cfg, s1, i) { DueIndex(cfg, s1, i); }
    var s2 := if Due(cfg, s1, i) then ResendItem(cfg, s1, i, input.resendWrite).0 else s1;
    var j := IndexOfPending(s2.core.outbox, Acknowledged);
    if Due(cfg, s2, j) { DueIndex(cfg, s2, j); }
  }
}
