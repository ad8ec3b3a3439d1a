/** The session's promises, stated over reachable states and whatever may follow. */
module SessionRuns {
  import opened Bytes
  import opened FixedHeader
  import opened Wire
  import opened OutboxSpec
  import opened SessionCore
  import opened Session
  import opened SessionProofs

  lemma StartGood()
    ensures Good(Start)
  {
  }

  lemma ReachableGood(cfg: Config, past: seq<Step>)
    requires Runs(cfg, Start, past)
    ensures Good(Exec(cfg, Start, past))
  {
    StartGood();
    RunKeeps(cfg, Start, past);
  }

  /** Messages only move forward: queued, transmitted, acknowledged, gone; and what is gone stays gone. */
  lemma MovesForward(cfg: Config, past: seq<Step>, future: seq<Step>)
    requires Runs(cfg, Start, past) && Runs(cfg, Exec(cfg, Start, past), future)
    ensures var c := Exec(cfg, Start, past).core; var d := Exec(cfg, Exec(cfg, Start, past), future).core;
      && |c.ledger| <= |d.ledger|
      && (forall i, j :: 0 <= i < |c.outbox| && 0 <= j < |d.outbox| && c.outbox[i].serial == d.outbox[j].serial
           ==> Rank(c.outbox[i].pending) <= Rank(d.outbox[j].pending))
      && (forall n :: 0 <= n < |c.ledger| && c.ledger[n].fate != InOutbox
           ==> d.ledger[n].fate == c.ledger[n].fate && n !in Serials(d.outbox))
  {
    var s := Exec(cfg, Start, past);
    ReachableGood(cfg, past);
    RunKeeps(cfg, s, future);
    StoredEntries(Exec(cfg, s, future).core);
  }

  /** A PUBREC acknowledges the stored message with its id. */
  lemma PubrecAcknowledges(s: State, id: nat, i: nat, w: WriteResult)
    requires Good(s) && i < |s.core.outbox| && s.core.outbox[i].id == id != 0
    ensures var t := ProcessReceive(s, Pubrec(id), w).0;
      i < |t.core.outbox| && t.core.outbox[i] == s.core.outbox[i].(pending := Acknowledged)
      && t.core.writes == s.core.writes + [WrotePubrel(id)]
  {
    assert IndexOfId(s.core.outbox, id) == i;
  }

  /** Section 4.3.3 of MQTT 3.1.1: from the moment a PUBREC has been processed, the message is not written
      again, and no PUBLISH with its id is, for as long as it stays in the outbox. */
  lemma PubrecSilences(cfg: Config, past: seq<Step>, future: seq<Step>, i: nat)
    requires Runs(cfg, Start, past) && Runs(cfg, Exec(cfg, Start, past), future)
    requires var s := Exec(cfg, Start, past); i < |s.core.outbox| && s.core.outbox[i].pending == Acknowledged
    ensures var s := Exec(cfg, Start, past); var t := Exec(cfg, s, future); var it := s.core.outbox[i];
      && |s.core.writes| <= |t.core.writes|
      && forall k :: |s.core.writes| <= k < |t.core.writes| && t.core.writes[k].WroteItem? ==>
           && t.core.writes[k].serial != it.serial
           && (it.id != 0 && it.serial in Serials(t.core.outbox) ==> t.core.writes[k].id != it.id)
  {
    var s := Exec(cfg, Start, past);
    ReachableGood(cfg, past);
    RunKeeps(cfg, s, future);
    var t := Exec(cfg, s, future);
    forall k | |s.core.writes| <= k < |t.core.writes| && t.core.writes[k].WroteItem?
      ensures t.core.writes[k].serial != s.core.outbox[i].serial
      ensures s.core.outbox[i].id != 0 && s.core.outbox[i].serial in Serials(t.core.outbox) ==> t.core.writes[k].id != s.core.outbox[i].id
    {
      assert Quiet(s.core.outbox[i], t.core.writes[k], s.core.outbox[i].serial in Serials(t.core.outbox));
    }
  }

  /** Section 3.3.1.1 of MQTT 3.1.1: a written PUBLISH of QoS 1 or 2 has DUP set exactly if an earlier write of
      the same message went out whole; nothing else of it ever changes. */
  lemma DupMarksRetransmissions(cfg: Config, past: seq<Step>, k: nat)
    requires Runs(cfg, Start, past)
    requires var c := Exec(cfg, Start, past).core; k < |c.writes| && c.writes[k].WroteItem?
    ensures var c := Exec(cfg, Start, past).core; var w := c.writes[k];
      && w.serial < |c.ledger| && w.bytes != [] && c.ledger[w.serial].packet != []
      && (w.mtype == PUBLISH && c.ledger[w.serial].qos > 0 ==>
           (DupOf(w.bytes[0]) == 1 <==> Completed(c.writes[..k], w.serial)))
      && w.bytes[1..] == c.ledger[w.serial].packet[1..]
      && TypeOf(w.bytes[0]) == TypeOf(c.ledger[w.serial].packet[0]) && QosOf(w.bytes[0]) == QosOf(c.ledger[w.serial].packet[0])
      && RetainOf(w.bytes[0]) == RetainOf(c.ledger[w.serial].packet[0])
  {
    ReachableGood(cfg, past);
    var c := Exec(cfg, Start, past).core;
    var w := c.writes[k];
    assert DupExact(c.writes, c.ledger, k);
    var p := c.ledger[w.serial].packet;
    assert EntryFits(c.ledger[w.serial]);
    DupKeepsFields(p[0]);
  }

  /** So a message of which part may have gone out in a write that failed is written again just as it was, DUP 0. */
  lemma RetryAfterFailedWrite(cfg: Config, past: seq<Step>, i: nat, k: nat, w: WriteResult)
    requires Runs(cfg, Start, past)
    requires var c := Exec(cfg, Start, past).core;
      && i < |c.outbox| && c.outbox[i].mtype == PUBLISH && c.outbox[i].pending == Queued
      && k < |c.writes| && c.writes[k].WroteItem? && c.writes[k].serial == c.outbox[i].serial
    ensures var s := Exec(cfg, Start, past); var c := s.core; var d := ResendQueued(cfg, s, i, w).core;
      && !c.writes[k].complete && c.writes[k].bytes != [] && DupOf(c.writes[k].bytes[0]) == 0
      && d.writes == c.writes + [c.writes[k].(complete := w == WriteOk)]
  {
    ReachableGood(cfg, past);
    var c := Exec(cfg, Start, past).core;
    StoredAgrees(c, i);
    assert DupExact(c.writes, c.ledger, k);
    NotCompletedBefore(c.writes, k, c.outbox[i].serial);
  }

  lemma NotCompletedBefore(writes: seq<Write>, k: nat, serial: nat)
    requires k <= |writes| && !Completed(writes, serial)
    ensures !Completed(writes[..k], serial)
  {
  }

  /** A connection that is accepted, nothing received, and every write of the task itself a success. */
  const Smooth := TaskInput(Accepted, NoPacket, WriteOk, WriteOk, WriteOk, WriteOk, WriteOk)

  const Defaults := Config(120_000, 30_000, 1000, 0, 10_000, true, 0)

  /** Such a run: connect, publish with a write that times out, wait, reconnect, resend. */
  function RetryRun(topic: seq<byte>, payload: seq<byte>): seq<Step> {
    [TaskIteration(Smooth), ApiPublish(topic, payload, 1, 0, 5, true, WriteTimeout), PollResult(false), Tick(10_001),
     TaskIteration(Smooth), TaskIteration(Smooth), PollResult(false), TaskIteration(Smooth)]
  }

  /** It writes the same message twice, both times with DUP 0. */
  lemma RetryRunWrites(topic: seq<byte>, payload: seq<byte>)
    ensures var steps := RetryRun(topic, payload); var packet := PublishPacket(0, 1, 0, topic, 5, payload);
      && Runs(Defaults, Start, steps)
      && DupOf(packet[0]) == 0
      && Exec(Defaults, Start, steps).core.writes
         == [WroteOther(CONNECT, 0), WroteItem(0, 5, PUBLISH, packet, false), WroteOther(CONNECT, 0), WroteItem(0, 5, PUBLISH, packet, true)]
  {
    hide PublishPacket, Iterate, Publishing, DupOf, Exec, Runs, Sweep, Abort;
    DupPacket(1, 0, topic, 5, payload);
    var packet := PublishPacket(0, 1, 0, topic, 5, payload);
    var steps := RetryRun(topic, payload);
    var once := [WroteOther(CONNECT, 0), WroteItem(0, 5, PUBLISH, packet, false)];
    FirstConnection();
    var s1 := Next(Defaults, Start, steps[0]);
    FirstPublish(s1, topic, payload);
    var s2 := Next(Defaults, s1, steps[1]);
    var s3 := Next(Defaults, s2, steps[2]);
    var s4 := Next(Defaults, s3, steps[3]);
    WaitOver(s4, packet, once);
    var s5 := Next(Defaults, s4, steps[4]);
    SecondConnection(s5, packet, once);
    var s6 := Next(Defaults, s5, steps[5]);
    var s7 := Next(Defaults, s6, steps[6]);
    SecondWrite(s7, packet, once + [WroteOther(CONNECT, 0)]);
    var s8 := Next(Defaults, s7, steps[7]);
    EightSteps(Defaults, Start, steps, s1, s2, s3, s4, s5, s6, s7, s8);
  }

  lemma FirstConnection()
    ensures var s := Iterate(Defaults, Start, Smooth);
      && s.core == Core([], [], [WroteOther(CONNECT, 0)]) && s.st == Connected && s.place == Polling && s.run && s.clock == 0
      && s.lastRetransmit == 0 && !s.disconnectBit
  {
    assert Sweep(Start.core, 0, 30_000) == Start.core;
  }

  /** The message alone in the outbox, as it was stored. */
  predicate Waits(s: State, packet: seq<byte>, writes: seq<Write>, st: ClientState, place: Place, clock: nat) {
    && s.core.outbox == [Item(0, 5, PUBLISH, 1, 0, Queued, packet)] && s.core.writes == writes
    && s.st == st && s.place == place && s.clock == clock && s.run && !s.disconnectBit && s.lastRetransmit == 0
  }

  lemma FirstPublish(s: State, topic: seq<byte>, payload: seq<byte>)
    requires s.core == Core([], [], [WroteOther(CONNECT, 0)]) && s.st == Connected && s.place == Polling && s.run && s.clock == 0
    requires s.lastRetransmit == 0 && !s.disconnectBit
    ensures var packet := PublishPacket(0, 1, 0, topic, 5, payload);
      var t := Publishing(Defaults, s, topic, payload, 1, 0, 5, WriteTimeout);
      && Waits(t, packet, [WroteOther(CONNECT, 0), WroteItem(0, 5, PUBLISH, packet, false)], WaitReconnect, Polling, 0)
      && t.reconnectTick == 0 && t.waitTimeout == 10_000
  {
    hide PublishPacket;
    var packet := PublishPacket(0, 1, 0, topic, 5, payload);
    var s1 := Stored(s, PUBLISH, 5, 1, packet);
    assert s1.core.outbox == [Item(0, 5, PUBLISH, 1, 0, Queued, packet)];
    assert Send(s1.core, 0, false).outbox == s1.core.outbox;
    assert Send(s1.core, 0, false).writes == [WroteOther(CONNECT, 0), WroteItem(0, 5, PUBLISH, packet, false)];
    hide Send;
  }

  lemma SweepNone(s: State, packet: seq<byte>, writes: seq<Write>, st: ClientState, place: Place)
    requires Waits(s, packet, writes, st, place, 10_001)
    ensures Waits(s.(core := Sweep(s.core, s.clock, 30_000)), packet, writes, st, place, 10_001)
  {
    KeepAll(s.core.outbox, 10_001, 30_000);
  }

  lemma WaitOver(s: State, packet: seq<byte>, writes: seq<Write>)
    requires Waits(s, packet, writes, WaitReconnect, LoopHead, 10_001) && s.reconnectTick == 0 && s.waitTimeout == 10_000
    ensures Waits(Iterate(Defaults, s, Smooth), packet, writes, Init, LoopHead, 10_001)
  {
    hide Sweep;
    SweepNone(s, packet, writes, WaitReconnect, LoopHead);
  }

  lemma SecondConnection(s: State, packet: seq<byte>, writes: seq<Write>)
    requires Waits(s, packet, writes, Init, LoopHead, 10_001)
    ensures var t := Iterate(Defaults, s, Smooth);
      Waits(t, packet, writes + [WroteOther(CONNECT, 0)], Connected, Polling, 10_001) && t.keepaliveTick == 10_001
  {
    hide Sweep;
    SweepNone(s, packet, writes, Init, LoopHead);
  }

  lemma SecondWrite(s: State, packet: seq<byte>, writes: seq<Write>)
    requires Waits(s, packet, writes, Connected, LoopHead, 10_001) && s.keepaliveTick == 10_001
    ensures Iterate(Defaults, s, Smooth).core.writes == writes + [WroteItem(0, 5, PUBLISH, packet, true)]
  {
    hide Sweep, HasTimedOut, Resend;
    SweepNone(s, packet, writes, Connected, LoopHead);
    WriteAgain(s.(core := Sweep(s.core, s.clock, 30_000)), packet, writes);
    HasTimedOutExact(10_001, 120_000, 10_001);
    HasTimedOutExact(10_001, 60_000, 10_001);
  }

  lemma WriteAgain(s: State, packet: seq<byte>, writes: seq<Write>)
    requires Waits(s, packet, writes, Connected, LoopHead, 10_001)
    ensures var t := Resend(Defaults, s, Smooth);
      && t.core.writes == writes + [WroteItem(0, 5, PUBLISH, packet, true)]
      && t.keepaliveTick == s.keepaliveTick && t.clock == s.clock
  {
    var s1 := s.(lastRetransmit := s.clock);
    assert IndexOfPending(s1.core.outbox, Queued) == 0;
    hide HasTimedOut, SetPending, Drop;
    assert Send(s1.core, 0, true).writes == writes + [WroteItem(0, 5, PUBLISH, packet, true)];
    PendingWrites(Send(s1.core, 0, true));
  }

  lemma PendingWrites(c: Core)
    ensures SetPending(c, 5, Transmitted).writes == c.writes
  {
  }

  lemma EightSteps(cfg: Config, s0: State, steps: seq<Step>, s1: State, s2: State, s3: State, s4: State, s5: State, s6: State, s7: State, s8: State)
    requires |steps| == 8
    requires Allowed(s0, steps[0]) && s1 == Next(cfg, s0, steps[0]) && Allowed(s1, steps[1]) && s2 == Next(cfg, s1, steps[1])
    requires Allowed(s2, steps[2]) && s3 == Next(cfg, s2, steps[2]) && Allowed(s3, steps[3]) && s4 == Next(cfg, s3, steps[3])
    requires Allowed(s4, steps[4]) && s5 == Next(cfg, s4, steps[4]) && Allowed(s5, steps[5]) && s6 == Next(cfg, s5, steps[5])
    requires Allowed(s6, steps[6]) && s7 == Next(cfg, s6, steps[6]) && Allowed(s7, steps[7]) && s8 == Next(cfg, s7, steps[7])
    ensures Runs(cfg, s0, steps) && Exec(cfg, s0, steps) == s8
  {
    hide Next, Allowed;
    OneStep(cfg, s7, steps, 7, s8);
    OneStep(cfg, s6, steps, 6, s7);
    OneStep(cfg, s5, steps, 5, s6);
    OneStep(cfg, s4, steps, 4, s5);
    OneStep(cfg, s3, steps, 3, s4);
    OneStep(cfg, s2, steps, 2, s3);
    OneStep(cfg, s1, steps, 1, s2);
    OneStep(cfg, s0, steps, 0, s1);
    assert steps[0..] == steps;
  }

  lemma OneStep(cfg: Config, s: State, steps: seq<Step>, n: nat, t: State)
    requires n < |steps| && Allowed(s, steps[n]) && t == Next(cfg, s, steps[n])
    requires n + 1 < |steps| ==> Runs(cfg, t, steps[n + 1..])
    ensures Runs(cfg, s, steps[n..])
    ensures Exec(cfg, s, steps[n..]) == if n + 1 < |steps| then Exec(cfg, t, steps[n + 1..]) else t
  {
    hide Next, Allowed;
    assert steps[n..][0] == steps[n] && steps[n..][1..] == steps[n + 1..];
  }

  /** Each stored message is either in the outbox or met exactly one fate; the application heard of the publication of
      just those that met their PUBACK or PUBCOMP, id by id, and those were of QoS 1 or 2. */
  lemma Accounting(cfg: Config, past: seq<Step>)
    requires Runs(cfg, Start, past)
    ensures var s := Exec(cfg, Start, past); var c := s.core;
      && (forall n :: 0 <= n < |c.ledger| ==> (c.ledger[n].fate == InOutbox <==> n in Serials(c.outbox)))
      && (forall i, j :: 0 <= i < j < |c.outbox| ==> c.outbox[i].serial < c.outbox[j].serial < |c.ledger|)
      && PublishedIds(s.events) == SettledIds(c.ledger)
      && (forall n :: 0 <= n < |c.ledger| && c.ledger[n].fate == Fate.Published ==>
           c.ledger[n].mtype == PUBLISH && c.ledger[n].qos > 0 && c.ledger[n].id != 0)
      && (forall n :: 0 <= n < |c.ledger| && c.ledger[n].fate == SentQos0 ==> c.ledger[n].mtype == PUBLISH && c.ledger[n].qos == 0)
  {
    ReachableGood(cfg, past);
    var s := Exec(cfg, Start, past);
    StoredEntries(s.core);
    forall n | 0 <= n < |s.core.ledger|
      ensures EntryFits(s.core.ledger[n])
    {
    }
  }
}
