/** What the steps of the session do, in terms of the outbox, the ledger, the writes and the events alone: storing,
    expiring, acknowledging, retransmitting and reconnecting. */
module SessionSteps {
  import opened Bytes
  import opened FixedHeader
  import opened Wire
  import opened OutboxSpec
  import opened SessionCore
  import opened Session
  import opened SessionProofs
  import opened SessionReplies
  import opened SessionResend
  import opened SessionRuns

  // ---- storing ----------------------------------------------------------------------------------

  /** The message is the last in the outbox now, and what has been written of it. */
  ghost predicate StoredLast(c: Core, d: Core, id: nat, mtype: nat, qos: nat, tick: int, packet: seq<byte>, p: Pending, attempts: seq<bool>) {
    var serial := |c.ledger|;
    && d.outbox == c.outbox + [Item(serial, id, mtype, qos, tick, p, packet)]
    && d.ledger == c.ledger + [Entry(id, mtype, qos, packet, InOutbox)]
    && |d.writes| == |c.writes| + |attempts| && d.writes[..|c.writes|] == c.writes
    && forall k :: 0 <= k < |attempts| ==> d.writes[|c.writes| + k] == WroteItem(serial, id, mtype, packet, attempts[k])
  }

  /** The core after a new message of QoS 1 or 2 has been stored and written, whether or not the write succeeds. */
  lemma StoredAndSent(c: Core, id: nat, mtype: nat, qos: nat, tick: nat, packet: seq<byte>, complete: bool)
    requires id != 0 && Fresh(c, id)
    ensures var a := Add(c, id, mtype, qos, tick, packet); var d := Send(a, |c.outbox|, complete);
      && |a.outbox| == |c.outbox| + 1
      && StoredLast(c, a, id, mtype, qos, tick, packet, Queued, [])
      && StoredLast(c, d, id, mtype, qos, tick, packet, Queued, [complete])
      && StoredLast(c, SetPending(SetTick(d, id, tick), id, Transmitted), id, mtype, qos, tick, packet, Transmitted, [complete])
  {
    var a := Add(c, id, mtype, qos, tick, packet);
    var d := Send(a, |c.outbox|, complete);
    assert d.outbox == a.outbox;
    LastIndex(c.outbox, a.outbox[|c.outbox|]);
    hide IndexOfId;
    assert SetTick(d, id, tick).outbox == a.outbox;
  }

  /** The same for a message that is marked first. */
  lemma StoredAndMarked(c: Core, id: nat, mtype: nat, qos: nat, tick: nat, packet: seq<byte>, complete: bool)
    requires Fresh(c, id) && mtype != PUBLISH
    ensures var a := Add(c, id, mtype, qos, tick, packet); var m := SetPending(a, id, Transmitted);
      |m.outbox| == |c.outbox| + 1 && StoredLast(c, Send(m, |c.outbox|, complete), id, mtype, qos, tick, packet, Transmitted, [complete])
  {
    var a := Add(c, id, mtype, qos, tick, packet);
    LastIndex(c.outbox, a.outbox[|c.outbox|]);
    hide IndexOfId;
    assert SetPending(a, id, Transmitted).outbox == c.outbox + [a.outbox[|c.outbox|].(pending := Transmitted)];
  }

  lemma PublishNowCore(cfg: Config, s: State, id: nat, qos: nat, w: WriteResult)
    requires qos > 0 && s.core.outbox != []
    ensures var t := PublishNow(cfg, s, id, qos, w); var d := Send(s.core, |s.core.outbox| - 1, w == WriteOk);
      if w == WriteOk then t == s.(core := SetPending(SetTick(d, id, s.clock), id, Transmitted))
      else t.core == d && t.st == WaitReconnect && t.waitTimeout == cfg.reconnectMs && t.reconnectTick == s.clock
  {
    hide Send, SetPending, SetTick;
  }

  /** Too much for the limit, if there is one. */
  predicate NoRoom(cfg: Config, s: State, len: nat) {
    cfg.outboxLimit > 0 && len + SizeOf(s.core.outbox) > cfg.outboxLimit
  }

  /** A publish of QoS 1 or 2 is stored, unless there is no room, and if connected written at once; it waits for its
      acknowledgement once the write has succeeded and stays queued otherwise. */
  lemma PublishStores(cfg: Config, s: State, topic: seq<byte>, payload: seq<byte>, qos: nat, retain: nat, drawn: nat, w: WriteResult)
    requires 1 <= qos < 3 && retain < 2 && drawn != 0 && Fresh(s.core, drawn)
    ensures var t := Publishing(cfg, s, topic, payload, qos, retain, drawn, w);
      var packet := PublishPacket(0, qos, retain, topic, drawn, payload);
      if NoRoom(cfg, s, |payload|) then t == s
      else if s.st != Connected then
        StoredLast(s.core, t.core, drawn, 3, qos, s.clock, packet, Queued, []) && t.events == s.events && t.st == s.st
      else if w == WriteOk then
        StoredLast(s.core, t.core, drawn, 3, qos, s.clock, packet, Transmitted, [true]) && t.events == s.events && t.st == Connected
      else
        StoredLast(s.core, t.core, drawn, 3, qos, s.clock, packet, Queued, [false]) && t.st == WaitReconnect
        && t.waitTimeout == cfg.reconnectMs && t.reconnectTick == s.clock
  {
    hide PublishPacket, StoredLast, Send, SetPending, SetTick, PublishNow, Add;
    var packet := PublishPacket(0, qos, retain, topic, drawn, payload);
    StoredAndSent(s.core, drawn, PUBLISH, qos, s.clock, packet, w == WriteOk);
    PublishNowCore(cfg, Stored(s, PUBLISH, drawn, qos, packet).(pendingQos := qos), drawn, qos, w);
  }

  /** A publish of QoS 0 is never stored: written once if connected, and forgotten. */
  lemma PublishForgets(cfg: Config, s: State, topic: seq<byte>, payload: seq<byte>, retain: nat, drawn: nat, w: WriteResult)
    requires retain < 2
    ensures var t := Publishing(cfg, s, topic, payload, 0, retain, drawn, w);
      && t.core.outbox == s.core.outbox && t.core.ledger == s.core.ledger
      && t.core.writes == s.core.writes + (if s.st == Connected then [WroteOther(3, 0)] else [])
      && t.st == (if s.st == Connected && w != WriteOk then WaitReconnect else s.st)
  {
    assert s.core.writes + [] == s.core.writes;
  }

  /** Enqueuing stores and leaves the writing to the task; QoS 0 messages are stored on request, with id 0. */
  lemma EnqueueStores(cfg: Config, s: State, topic: seq<byte>, payload: seq<byte>, qos: nat, retain: nat, drawn: nat, store: bool)
    requires qos < 3 && retain < 2
    ensures var t := Enqueuing(cfg, s, topic, payload, qos, retain, drawn, store);
      var id := if qos == 0 then 0 else drawn;
      && t.events == s.events && t.st == s.st
      && if NoRoom(cfg, s, |payload|) || (qos == 0 && !store) then t == s
         else StoredLast(s.core, t.core, id, 3, qos, s.clock, PublishPacket(0, qos, retain, topic, id, payload), Queued, [])
  {
    hide PublishPacket, SizeOf;
  }

  /** SUBSCRIBE and UNSUBSCRIBE: refused unless connected; stored, taken as transmitted at once and written once. */
  lemma AskingStores(s: State, mtype: nat, packet: seq<byte>, drawn: nat, w: WriteResult)
    requires mtype != PUBLISH && drawn != 0 && Fresh(s.core, drawn)
    ensures var t := Asking(s, mtype, packet, drawn, w);
      if s.st != Connected then t == s
      else t.st == Connected && t.events == s.events + (if w == WriteError then [ErrorEvent] else [])
           && StoredLast(s.core, t.core, drawn, mtype, s.pendingQos, s.clock, packet, Transmitted, [w == WriteOk])
  {
    hide StoredLast, Send, SetPending, Add;
    StoredAndMarked(s.core, drawn, mtype, s.pendingQos, s.clock, packet, w == WriteOk);
    assert s.events + [] == s.events;
  }

  // ---- expiring ---------------------------------------------------------------------------------

  lemma FreshStays(items: seq<Item>, i: nat, now: int, timeout: int)
    requires Ordered(items) && i < |items|
    ensures items[i].serial in Serials(KeepFresh(items, now, timeout)) <==> now - items[i].tick <= timeout
  {
    KeepFreshMembers(items, now, timeout);
    var kept := KeepFresh(items, now, timeout);
    if items[i] in kept {
      var j :| 0 <= j < |kept| && kept[j] == items[i];
      assert kept[j].serial in Serials(kept);
    }
    if items[i].serial in Serials(kept) {
      var j :| 0 <= j < |kept| && kept[j].serial == items[i].serial;
      assert kept[j] in items;
    }
  }

  /** Message n is stored and older than the limit. */
  ghost predicate OverAge(items: seq<Item>, n: nat, now: int, timeout: int) {
    exists i :: 0 <= i < |items| && items[i].serial == n && now - items[i].tick > timeout
  }

  lemma OverAgeIs(items: seq<Item>, n: nat, now: int, timeout: int)
    requires Ordered(items)
    ensures OverAge(items, n, now, timeout) <==> n in Serials(items) && n !in Serials(KeepFresh(items, now, timeout))
  {
    hide KeepFresh;
    if n in Serials(items) {
      var i :| 0 <= i < |items| && items[i].serial == n;
      FreshStays(items, i, now, timeout);
      if OverAge(items, n, now, timeout) {
        var k :| 0 <= k < |items| && items[k].serial == n && now - items[k].tick > timeout;
        assert k == i;
      }
    }
  }

  lemma SweptLedger(c: Core, n: nat, now: int, timeout: int)
    requires CoreInv(c) && n < |c.ledger|
    ensures Sweep(c, now, timeout).ledger[n]
         == if OverAge(c.outbox, n, now, timeout) then c.ledger[n].(fate := TimedOut) else c.ledger[n]
  {
    StoredOrder(c);
    hide CoreInv, KeepFresh, OverAge;
    OverAgeIs(c.outbox, n, now, timeout);
  }

  /** The sweep at the start of every iteration takes exactly the messages older than the limit out, each of them as timed
      out, and leaves the others in order. */
  lemma SweepExactly(c: Core, now: int, timeout: int)
    requires CoreInv(c)
    ensures var d := Sweep(c, now, timeout);
      && (forall it :: it in d.outbox <==> it in c.outbox && now - it.tick <= timeout)
      && Ordered(d.outbox) && d.writes == c.writes && |d.ledger| == |c.ledger|
      && (forall i :: 0 <= i < |c.outbox| && now - c.outbox[i].tick > timeout ==> c.outbox[i].serial !in Serials(d.outbox))
      && forall n :: 0 <= n < |c.ledger| ==> d.ledger[n] == if OverAge(c.outbox, n, now, timeout) then c.ledger[n].(fate := TimedOut) else c.ledger[n]
  {
    StoredOrder(c);
    KeepFreshMembers(c.outbox, now, timeout);
    KeepFreshOrder(c.outbox, now, timeout);
    forall i | 0 <= i < |c.outbox| && now - c.outbox[i].tick > timeout
      ensures c.outbox[i].serial !in Serials(KeepFresh(c.outbox, now, timeout))
    {
      FreshStays(c.outbox, i, now, timeout);
    }
    forall n | 0 <= n < |c.ledger|
      ensures Sweep(c, now, timeout).ledger[n]
           == if OverAge(c.outbox, n, now, timeout) then c.ledger[n].(fate := TimedOut) else c.ledger[n]
    {
      SweptLedger(c, n, now, timeout);
    }
  }

  /** In every run no iteration leaves a message behind that was older than the limit when it began. */
  lemma ExpiredGo(cfg: Config, past: seq<Step>, input: TaskInput, i: nat)
    requires Runs(cfg, Start, past) && PacketIdOk(input.packet)
    requires var s := Exec(cfg, Start, past); i < |s.core.outbox| && s.clock - s.core.outbox[i].tick > cfg.expireMs
    ensures var s := Exec(cfg, Start, past); var t := Iterate(cfg, s, input); var n := s.core.outbox[i].serial;
      n !in Serials(t.core.outbox) && n < |t.core.ledger| && t.core.ledger[n].fate == TimedOut
  {
    hide Good, Keeps, Iterate, Exec, Runs, Sweep, CoreInv;
    var s := Exec(cfg, Start, past);
    ReachableGood(cfg, past);
    AfterSweep(cfg, s, input);
    ExpiredSwept(cfg, s, i);
    StaysGone(s.(core := Sweep(s.core, s.clock, cfg.expireMs)), Iterate(cfg, s, input), s.core.outbox[i].serial);
  }

  lemma ExpiredSwept(cfg: Config, s: State, i: nat)
    requires Good(s) && i < |s.core.outbox| && s.clock - s.core.outbox[i].tick > cfg.expireMs
    ensures var t := s.(core := Sweep(s.core, s.clock, cfg.expireMs)); var n := s.core.outbox[i].serial;
      Good(t) && n < |t.core.ledger| && t.core.ledger[n].fate == TimedOut
  {
    SweepState(s, s.clock, cfg.expireMs);
    SweepExactly(s.core, s.clock, cfg.expireMs);
    StoredAgrees(s.core, i);
    hide CoreInv, Sweep;
    assert OverAge(s.core.outbox, s.core.outbox[i].serial, s.clock, cfg.expireMs);
  }

  // ---- an iteration of a connected session -----------------------------------------------------------

  /** The session as the packet of the iteration finds it. */
  function Swept(cfg: Config, s: State): State {
    s.(core := Sweep(s.core, s.clock, cfg.expireMs))
  }

  /** The session as the packet of the iteration leaves it. */
  function Heard(cfg: Config, s: State, input: TaskInput): State {
    ProcessReceive(Swept(cfg, s), input.packet, input.replyWrite).0
  }

  /** What follows the packet takes nothing back. */
  lemma AfterReceive(cfg: Config, s: State, input: TaskInput)
    requires Good(s) && s.st == Connected && !s.disconnectBit && PacketIdOk(input.packet)
    ensures Good(Heard(cfg, s, input)) && Keeps(Heard(cfg, s, input), Iterate(cfg, s, input))
  {
    hide CoreInv, Evolves, ProcessReceive, Sweep;
    var s1 := Swept(cfg, s);
    SweepState(s, s.clock, cfg.expireMs);
    var (s2, received) := ProcessReceive(s1, input.packet, input.replyWrite);
    ReceiveKeeps(s1, input.packet, input.replyWrite);
    if received { BusyKeeps(cfg, s2, input); } else { AbortKeeps(cfg, s2); }
    IterateShape(cfg, s, input);
    hide Iterate;
    SameKeeps(IterateConnected(cfg, s1, input), Iterate(cfg, s, input));
    KeepsTrans(s2, IterateConnected(cfg, s1, input), Iterate(cfg, s, input));
  }

  lemma PubackHeard(cfg: Config, s: State, input: TaskInput, i: nat)
    requires Good(s) && i < |s.core.outbox|
    requires var it := s.core.outbox[i];
      && it.mtype == PUBLISH && it.id != 0 && s.clock - it.tick <= cfg.expireMs
      && (input.packet == Puback(it.id) || input.packet == Pubcomp(it.id))
    ensures var u := Heard(cfg, s, input); var it := s.core.outbox[i];
      && it.serial < |u.core.ledger| && u.core.ledger[it.serial].fate == Fate.Published
      && u.events == s.events + [MessagePublished(it.id)]
  {
    hide CoreInv, Evolves, ProcessReceive, Sweep;
    var it := s.core.outbox[i];
    var s1 := Swept(cfg, s);
    SweepState(s, s.clock, cfg.expireMs);
    SweepExactly(s.core, s.clock, cfg.expireMs);
    assert it in s1.core.outbox;
    var k :| 0 <= k < |s1.core.outbox| && s1.core.outbox[k] == it;
    PubackSettles(s1, k, input.replyWrite);
  }

  /** In every run, a message of QoS 1 or 2 whose PUBACK or PUBCOMP comes in before it expires has left the outbox for good by the
      end of that iteration, and the application has heard of it. */
  lemma PubackEnds(cfg: Config, past: seq<Step>, input: TaskInput, i: nat)
    requires Runs(cfg, Start, past)
    requires var s := Exec(cfg, Start, past);
      && s.st == Connected && !s.disconnectBit && i < |s.core.outbox|
      && var it := s.core.outbox[i];
         && it.mtype == PUBLISH && it.id != 0 && s.clock - it.tick <= cfg.expireMs
         && (input.packet == Puback(it.id) || input.packet == Pubcomp(it.id))
    ensures var s := Exec(cfg, Start, past); var t := Iterate(cfg, s, input); var it := s.core.outbox[i];
      && it.serial !in Serials(t.core.outbox) && it.serial < |t.core.ledger| && t.core.ledger[it.serial].fate == Fate.Published
      && s.events + [MessagePublished(it.id)] <= t.events
  {
    hide Good, Keeps, Heard, Iterate, Exec, Runs;
    var s := Exec(cfg, Start, past);
    ReachableGood(cfg, past);
    PubackHeard(cfg, s, input, i);
    AfterReceive(cfg, s, input);
    StaysGone(Heard(cfg, s, input), Iterate(cfg, s, input), s.core.outbox[i].serial);
  }

  lemma StaysGone(s: State, t: State, n: nat)
    requires Good(s) && Keeps(s, t) && n < |s.core.ledger| && s.core.ledger[n].fate != InOutbox
    ensures n < |t.core.ledger| && t.core.ledger[n].fate == s.core.ledger[n].fate && n !in Serials(t.core.outbox)
    ensures s.events <= t.events
  {
    StoredEntries(t.core);
  }

  predicate HeardWell(cfg: Config, s: State, input: TaskInput) {
    s.st == Connected && !s.disconnectBit && ProcessReceive(Swept(cfg, s), input.packet, input.replyWrite).1
  }

  lemma AfterResend(cfg: Config, s: State, input: TaskInput)
    requires Good(s) && PacketIdOk(input.packet) && HeardWell(cfg, s, input)
    ensures Good(Heard(cfg, s, input)) && Keeps(Resend(cfg, Heard(cfg, s, input), input), Iterate(cfg, s, input))
  {
    hide CoreInv, Evolves, ProcessReceive, Sweep, Resend, ProcessKeepalive;
    var s1, s2 := Swept(cfg, s), Heard(cfg, s, input);
    SweepState(s, s.clock, cfg.expireMs);
    ReceiveKeeps(s1, input.packet, input.replyWrite);
    var r := Resend(cfg, s2, input);
    ResendKeeps(cfg, s2, input);
    KeepaliveKeeps(cfg, r, input.pingWrite);
    var (a, alive) := ProcessKeepalive(cfg, r, input.pingWrite);
    RefreshKeeps(cfg, a);
    KeepsTrans(r, a, Refresh(cfg, a));
    IterateShape(cfg, s, input);
    hide Iterate;
    var u := IterateConnected(cfg, s1, input);
    assert Keeps(r, u);
    SameKeeps(u, Iterate(cfg, s, input));
    KeepsTrans(r, u, Iterate(cfg, s, input));
  }

  /** An iteration whose packet gives no reason to stop writes next the oldest queued message; or else, once every retransmission
      time, the oldest transmitted one that has waited longer than that, with DUP set if it is a PUBLISH of QoS 1 or 2. */
  lemma IterationResends(cfg: Config, s: State, input: TaskInput, i: nat)
    requires Good(s) && PacketIdOk(input.packet) && HeardWell(cfg, s, input)
    requires var u := Heard(cfg, s, input);
      && i < |u.core.outbox|
      && (Oldest(u.core.outbox, Queued, i)
          || (RoundDue(cfg, u) && Oldest(u.core.outbox, Transmitted, i) && u.clock - u.core.outbox[i].tick > cfg.retransmitMs))
    ensures var u := Heard(cfg, s, input); var t := Iterate(cfg, s, input); var n := |u.core.writes|; var it := u.core.outbox[i];
      && n < |t.core.writes| && t.core.writes[..n] == u.core.writes
      && if it.pending == Queued then t.core.writes[n] == WroteItem(it.serial, it.id, it.mtype, it.data, input.resendWrite == WriteOk)
         else WrittenAgain(t.core.writes[n], it, input.resendWrite == WriteOk)
  {
    hide CoreInv, Heard, HeardWell, Resend, Iterate, WrittenAgain;
    var u := Heard(cfg, s, input);
    AfterResend(cfg, s, input);
    var it := u.core.outbox[i];
    if it.pending == Queued {
      OldestQueuedFirst(cfg, u, input, i);
    } else {
      RoundExactly(cfg, u, input, i, IndexOfPending(u.core.outbox, Acknowledged));
    }
    WritesStay(Resend(cfg, u, input), Iterate(cfg, s, input));
  }

  lemma WritesStay(r: State, t: State)
    requires Keeps(r, t)
    ensures r.core.writes <= t.core.writes
  {
  }

  // ---- connecting and reconnecting ---------------------------------------------------------------------

  /** Only an accepted attempt connects; any other that reaches the transport waits for the reconnect time from now. */
  lemma ConnectOutcome(cfg: Config, s: State, c: ConnectResult)
    ensures var t := IterateInit(cfg, s, c);
      && (c == NoTransport ==> !t.run && t.core == s.core && t.events == s.events)
      && (c == Accepted ==>
           && t.st == Connected && t.events == s.events + [BeforeConnect, NowConnected]
           && t.keepaliveTick == t.refreshTick == s.clock && !t.waitPing)
      && (c == TransportRefused || c.Refused? ==>
           t.st == WaitReconnect && t.waitTimeout == cfg.reconnectMs && t.reconnectTick == s.clock && NowConnected !in t.events[|s.events|..])
      && t.core.outbox == s.core.outbox && t.core.ledger == s.core.ledger
      && t.core.writes == s.core.writes + (if c == Accepted || c.Refused? then [WroteOther(1, 0)] else [])
  {
    assert s.core.writes + [] == s.core.writes;
    InitShape(cfg, s, c);
    hide InitEvents;
  }

  /** From waiting the session tries again exactly when it is to reconnect by itself and more than the wait has passed, or is
      not and has been asked to. */
  lemma ReconnectsExactly(cfg: Config, s: State)
    requires s.st == WaitReconnect
    ensures IterateWait(cfg, s).st == Init <==>
      if cfg.autoReconnect then s.clock > s.reconnectTick + s.waitTimeout else s.reconnectBit
    ensures IterateWait(cfg, s).st != Init ==> IterateWait(cfg, s) == s
  {
  }

  /** A request to disconnect is answered with a DISCONNECT, and nothing is received or sent again first. */
  lemma DisconnectsAtOnce(cfg: Config, s: State, input: TaskInput)
    requires s.st == Connected && s.disconnectBit
    ensures var t := Iterate(cfg, s, input); var c := Swept(cfg, s).core;
      && t.st == WaitReconnect && !t.disconnectBit && t.core == c.(writes := c.writes + [WroteOther(14, 0)])
      && t.events == s.events + (if input.disconnectWrite == WriteError then [ErrorEvent] else []) + [NowDisconnected]
  {
    hide Sweep;
    assert s.events + [] == s.events;
  }

  /** Asked to reconnect, a waiting session tries again at its next iteration on a later tick, or at once if it does not
      reconnect by itself; a session that is not waiting is not moved. */
  lemma ReconnectTakes(cfg: Config, s: State)
    ensures var t := Next(cfg, s, ApiReconnect);
      && t.core == s.core && t.events == s.events
      && if s.st == WaitReconnect then IterateWait(cfg, t).st == Init <==> !cfg.autoReconnect || s.clock > s.reconnectTick else t == s
  {
  }

  /** Stopping a running session writes a DISCONNECT if it is connected, and the task will not run again. */
  lemma StopsAtOnce(cfg: Config, s: State, w: WriteResult)
    ensures var t := Next(cfg, s, ApiStop(w));
      if !s.run then t == s
      else !t.run && t.st == Disconnected
           && t.core == s.core.(writes := s.core.writes + (if s.st == Connected then [WroteOther(14, 0)] else []))
  {
    assert s.core.writes + [] == s.core.writes;
  }

  /** When the task ends nothing is left in the outbox, and what was there is accounted for as cleared. */
  lemma EndClears(cfg: Config, s: State)
    requires Good(s) && Allowed(s, TaskEnd)
    ensures var t := Next(cfg, s, TaskEnd);
      && t.core.outbox == [] && t.st == Disconnected && |t.core.ledger| == |s.core.ledger|
      && forall n :: 0 <= n < |s.core.ledger| ==>
           t.core.ledger[n] == if s.core.ledger[n].fate == InOutbox then s.core.ledger[n].(fate := Cleared) else s.core.ledger[n]
  {
    StoredEntries(s.core);
  }
}
