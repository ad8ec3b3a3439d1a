/** Safety of every run of the session: what no sequence of API calls, packets, timeouts and failures breaks. */
module SessionProofs {
  import opened Bytes
  import opened FixedHeader
  import opened Wire
  import opened OutboxSpec
  import opened SessionCore
  import opened Session

  // ---- events against the ledger ----------------------------------------------------------------

  /** The ids the application was told have been published, with their multiplicity. */
  function PublishedIds(events: seq<Event>): multiset<nat> {
    if events == [] then multiset{}
    else
      var last := events[|events| - 1];
      PublishedIds(events[..|events| - 1]) + if last.MessagePublished? then multiset{last.id} else multiset{}
  }

  /** The ids of the messages that met their PUBACK or PUBCOMP. */
  function SettledIds(ledger: seq<Entry>): multiset<nat> {
    if ledger == [] then multiset{} else SettledIds(ledger[..|ledger| - 1]) + SettledId(ledger[|ledger| - 1])
  }

  function SettledId(e: Entry): multiset<nat> {
    if e.fate == Fate.Published then multiset{e.id} else multiset{}
  }

  /** Every packet is stored with DUP clear. Only a PUBLISH of QoS 1 or 2 is settled by PUBACK or PUBCOMP, only one of QoS 0 is done once sent. */
  predicate EntryFits(e: Entry) {
    && e.packet != [] && DupOf(e.packet[0]) == 0
    && (e.fate == Fate.Published ==> e.mtype == PUBLISH && e.id != 0 && e.qos > 0)
    && (e.fate == SentQos0 ==> e.mtype == PUBLISH && e.qos == 0)
    && (e.fate == Granted ==> e.mtype == SUBSCRIBE || e.mtype == UNSUBSCRIBE)
  }

  predicate EntriesFit(ledger: seq<Entry>) {
    forall n :: 0 <= n < |ledger| ==> EntryFits(ledger[n])
  }

  /** The core invariant, and PUBLISHED events for just the messages that met their PUBACK or PUBCOMP. */
  predicate Good(s: State) {
    CoreInv(s.core) && EntriesFit(s.core.ledger) && PublishedIds(s.events) == SettledIds(s.core.ledger)
  }

  lemma CountDispatch(events: seq<Event>, e: Event)
    ensures PublishedIds(events + [e]) == PublishedIds(events) + if e.MessagePublished? then multiset{e.id} else multiset{}
  {
    assert (events + [e])[..|events|] == events;
  }

  lemma SettledMore(ledger: seq<Entry>, e: Entry)
    ensures SettledIds(ledger + [e]) == SettledIds(ledger) + SettledId(e)
  {
    assert (ledger + [e])[..|ledger|] == ledger;
  }

  lemma CountAdd(ledger: seq<Entry>, e: Entry)
    requires e.fate == InOutbox
    ensures SettledIds(ledger + [e]) == SettledIds(ledger)
  {
    SettledMore(ledger, e);
  }

  lemma RetireLast(ledger: seq<Entry>, gone: set<nat>, fate: Fate)
    requires ledger != []
    ensures var n := |ledger| - 1; var last := if n in gone then ledger[n].(fate := fate) else ledger[n];
      && SettledIds(Retire(ledger, gone, fate)) == SettledIds(Retire(ledger[..n], gone, fate)) + SettledId(last)
      && SettledIds(ledger) == SettledIds(ledger[..n]) + SettledId(ledger[n])
  {
    hide SettledIds, SettledId, Retire;
    RetireFront(ledger, gone, fate);
    SettledLast(ledger);
    SettledLast(Retire(ledger, gone, fate));
  }

  lemma SettledLast(ledger: seq<Entry>)
    requires ledger != []
    ensures SettledIds(ledger) == SettledIds(ledger[..|ledger| - 1]) + SettledId(ledger[|ledger| - 1])
  {
  }

  lemma RetireFront(ledger: seq<Entry>, gone: set<nat>, fate: Fate)
    requires ledger != []
    ensures var n := |ledger| - 1; var r := Retire(ledger, gone, fate);
      r[..n] == Retire(ledger[..n], gone, fate) && r[n] == if n in gone then ledger[n].(fate := fate) else ledger[n]
  {
  }

  lemma {:induction false} CountRetire(ledger: seq<Entry>, gone: set<nat>, fate: Fate)
    requires forall n :: n in gone && n < |ledger| ==> ledger[n].fate == InOutbox
    requires fate != Fate.Published
    ensures SettledIds(Retire(ledger, gone, fate)) == SettledIds(ledger)
  {
    hide SettledIds, Retire;
    if ledger != [] {
      CountRetire(ledger[..|ledger| - 1], gone, fate);
      RetireLast(ledger, gone, fate);
    } else {
      RetireNone(gone, fate);
    }
  }

  lemma RetireNone(gone: set<nat>, fate: Fate)
    ensures Retire([], gone, fate) == []
  {
  }

  lemma {:induction false} CountRetireOne(ledger: seq<Entry>, n: nat)
    requires n < |ledger| ==> ledger[n].fate == InOutbox
    ensures SettledIds(Retire(ledger, {n}, Fate.Published))
         == SettledIds(ledger) + if n < |ledger| then multiset{ledger[n].id} else multiset{}
  {
    hide SettledIds, Retire;
    if ledger != [] {
      var k := |ledger| - 1;
      CountRetireOne(ledger[..k], n);
      RetireLast(ledger, {n}, Fate.Published);
      if n < k { Swap(SettledIds(ledger[..k]), multiset{ledger[n].id}, SettledId(ledger[k])); }
    } else {
      RetireNone({n}, Fate.Published);
    }
  }

  lemma Swap(a: multiset<nat>, b: multiset<nat>, c: multiset<nat>)
    ensures a + b + c == a + c + b
  {
  }

  /** Stored serials have entries that are still in the outbox. */
  lemma StoredEntries(c: Core)
    requires CoreInv(c)
    ensures forall n :: n in Serials(c.outbox) ==> n < |c.ledger| && c.ledger[n].fate == InOutbox
  {
    forall n | n in Serials(c.outbox)
      ensures n < |c.ledger| && c.ledger[n].fate == InOutbox
    {
      var i :| 0 <= i < |c.outbox| && c.outbox[i].serial == n;
      assert Agrees(c.outbox[i], c.ledger[c.outbox[i].serial], c.writes);
    }
  }

  lemma StoredAgrees(c: Core, i: nat)
    requires CoreInv(c) && i < |c.outbox|
    ensures c.outbox[i].serial < |c.ledger| && Agrees(c.outbox[i], c.ledger[c.outbox[i].serial], c.writes)
  {
  }

  // ---- what a change of state keeps ---------------------------------------------------------------

  predicate Keeps(s: State, t: State) {
    Good(t) && Evolves(s.core, t.core) && s.events <= t.events
  }

  lemma KeepsTrans(s: State, t: State, u: State)
    requires Good(s) && Keeps(s, t) && Keeps(t, u)
    ensures Keeps(s, u)
  {
    EvolvesTrans(s.core, t.core, u.core);
  }

  lemma DispatchKeeps(s: State, e: Event)
    requires Good(s) && !e.MessagePublished?
    ensures Keeps(s, Dispatch(s, e))
  {
    CountDispatch(s.events, e);
  }

  lemma ReportKeeps(s: State, w: WriteResult)
    requires Good(s)
    ensures Keeps(s, Report(s, w))
  {
    DispatchKeeps(s, ErrorEvent);
  }

  lemma WriteOtherKeeps(s: State, mtype: nat, id: nat, w: WriteResult)
    requires Good(s)
    ensures Keeps(s, WriteOther(s, mtype, id, w))
  {
    hide CoreInv, Evolves;
    LogKeeps(s.core, SessionCore.WroteOther(mtype, id));
    var t := s.(core := Log(s.core, SessionCore.WroteOther(mtype, id)));
    ReportKeeps(t, w);
    KeepsTrans(s, t, WriteOther(s, mtype, id, w));
  }

  lemma AbortKeeps(cfg: Config, s: State)
    requires Good(s)
    ensures Keeps(s, Abort(cfg, s))
  {
    CountDispatch(s.events, NowDisconnected);
  }

  lemma GiveUpKeeps(cfg: Config, s: State, w: WriteResult)
    requires Good(s)
    ensures Keeps(s, GiveUp(cfg, s, w))
  {
    hide CoreInv, Evolves;
    ReportKeeps(s, w);
    AbortKeeps(cfg, Report(s, w));
    KeepsTrans(s, Report(s, w), GiveUp(cfg, s, w));
  }

  lemma OtherThenAbort(cfg: Config, s: State, mtype: nat, id: nat, w: WriteResult)
    requires Good(s)
    ensures Keeps(s, WriteOther(s, mtype, id, w)) && Keeps(s, Abort(cfg, WriteOther(s, mtype, id, w)))
  {
    hide CoreInv, Evolves;
    var t := WriteOther(s, mtype, id, w);
    WriteOtherKeeps(s, mtype, id, w);
    AbortKeeps(cfg, t);
    KeepsTrans(s, t, Abort(cfg, t));
  }

  /** Changing the core by an operation that settles nothing. */
  lemma CoreKeeps(s: State, c: Core)
    requires Good(s) && CoreInv(c) && Evolves(s.core, c) && c.ledger == s.core.ledger
    ensures Keeps(s, s.(core := c))
  {
  }

  // ---- the pieces of an iteration --------------------------------------------------------------------

  lemma DropState(s: State, i: nat, fate: Fate)
    requires Good(s) && i < |s.core.outbox| && fate != InOutbox && fate != Fate.Published
    requires EntryFits(s.core.ledger[s.core.outbox[i].serial].(fate := fate))
    ensures Keeps(s, s.(core := Drop(s.core, i, fate)))
  {
    hide CoreInv, Evolves, PublishedIds, SettledIds, EntryFits, RemoveAt;
    DropKeeps(s.core, i, fate);
    StoredAgrees(s.core, i);
    StoredOrder(s.core);
    RemoveAtPart(s.core.outbox, i);
    CountRetire(s.core.ledger, {s.core.outbox[i].serial}, fate);
  }

  lemma SweepState(s: State, now: int, timeout: int)
    requires Good(s)
    ensures Keeps(s, s.(core := Sweep(s.core, now, timeout)))
  {
    hide CoreInv, Evolves, PublishedIds, SettledIds, KeepFresh;
    SweepKeeps(s.core, now, timeout);
    StoredEntries(s.core);
    CountRetire(s.core.ledger, Serials(s.core.outbox) - Serials(KeepFresh(s.core.outbox, now, timeout)), Fate.TimedOut);
  }

  lemma ClearState(s: State)
    requires Good(s)
    ensures Keeps(s, s.(core := Clear(s.core)))
  {
    ClearKeeps(s.core);
    StoredEntries(s.core);
    CountRetire(s.core.ledger, Serials(s.core.outbox) - Serials([]), Cleared);
  }

  /** Settling one message adds its id, on both sides. */
  lemma CountDrop(c: Core, i: nat)
    requires CoreInv(c) && EntriesFit(c.ledger) && i < |c.outbox| && c.outbox[i].mtype % 256 == PUBLISH && c.outbox[i].id != 0
    ensures var d := Drop(c, i, Fate.Published);
      SettledIds(d.ledger) == SettledIds(c.ledger) + multiset{c.outbox[i].id} && EntriesFit(d.ledger)
  {
    hide SettledIds, EntryFits, RemoveAt, SettledId, CoreInv;
    StoredAgrees(c, i);
    SettledFits(c, i);
    StoredOrder(c);
    RemoveAtPart(c.outbox, i);
    CountRetireOne(c.ledger, c.outbox[i].serial);
  }

  lemma StoredOrder(c: Core)
    requires CoreInv(c)
    ensures Ordered(c.outbox)
  {
  }

  /** What a PUBACK or PUBCOMP can settle is a PUBLISH of QoS 1 or 2. */
  lemma SettledFits(c: Core, i: nat)
    requires CoreInv(c) && EntriesFit(c.ledger) && i < |c.outbox| && c.outbox[i].mtype % 256 == PUBLISH && c.outbox[i].id != 0
    ensures c.outbox[i].serial < |c.ledger| && EntryFits(c.ledger[c.outbox[i].serial].(fate := Fate.Published))
  {
    StoredAgrees(c, i);
  }

  lemma SettleKeeps(s: State, id: nat, mtype: nat, fate: Fate, e: Event)
    requires Good(s) && fate in {Fate.Published, Granted} && (fate == Fate.Published <==> e.MessagePublished?)
    requires e.MessagePublished? ==> e.id == id
    requires if fate == Fate.Published then mtype == PUBLISH && id != 0 else mtype == SUBSCRIBE || mtype == UNSUBSCRIBE
    ensures Keeps(s, Settle(s, id, mtype, fate, e))
  {
    hide CoreInv, Evolves, PublishedIds, SettledIds, EntriesFit;
    var i := IndexOfMatch(s.core.outbox, id, mtype);
    if i == |s.core.outbox| {
      SameKeeps(s, s);
    } else if fate == Fate.Published {
      PublishedKeeps(s, i, e);
    } else {
      GrantedKeeps(s, i, e);
    }
  }

  lemma GrantedKeeps(s: State, i: nat, e: Event)
    requires Good(s) && i < |s.core.outbox| && s.core.outbox[i].mtype % 256 in {SUBSCRIBE, UNSUBSCRIBE} && !e.MessagePublished?
    ensures Keeps(s, Dispatch(s.(core := Drop(s.core, i, Granted)), e))
  {
    hide CoreInv, Evolves, PublishedIds, SettledIds, EntriesFit, Drop, Dispatch;
    var t := s.(core := Drop(s.core, i, Granted));
    GrantFits(s.core, i);
    DropState(s, i, Granted);
    DispatchKeeps(t, e);
    KeepsTrans(s, t, Dispatch(t, e));
  }

  /** What a SUBACK or UNSUBACK can settle is a SUBSCRIBE or UNSUBSCRIBE. */
  lemma GrantFits(c: Core, i: nat)
    requires CoreInv(c) && EntriesFit(c.ledger) && i < |c.outbox| && c.outbox[i].mtype % 256 in {SUBSCRIBE, UNSUBSCRIBE}
    ensures c.outbox[i].serial < |c.ledger| && EntryFits(c.ledger[c.outbox[i].serial].(fate := Granted))
  {
    StoredAgrees(c, i);
  }

  lemma PublishedKeeps(s: State, i: nat, e: Event)
    requires Good(s) && i < |s.core.outbox| && s.core.outbox[i].mtype % 256 == PUBLISH && s.core.outbox[i].id != 0
    requires e == MessagePublished(s.core.outbox[i].id)
    ensures Keeps(s, Dispatch(s.(core := Drop(s.core, i, Fate.Published)), e))
  {
    hide CoreInv, Evolves, PublishedIds, SettledIds;
    DropKeeps(s.core, i, Fate.Published);
    CountDrop(s.core, i);
    CountDispatch(s.events, e);
  }

  /** A PUBREC acknowledges the message with its id; the PUBREL that answers it is logged. */
  lemma PubrecKeeps(s: State, id: nat, w: WriteResult)
    requires Good(s)
    ensures Keeps(s, Report(s.(core := Log(SetPending(s.core, id, Acknowledged), WrotePubrel(id))), w))
  {
    var i := IndexOfId(s.core.outbox, id);
    var b := SetPending(s.core, id, Acknowledged);
    if i < |s.core.outbox| {
      assert Agrees(s.core.outbox[i], s.core.ledger[s.core.outbox[i].serial], s.core.writes);
      MarkKeeps(s.core, i, Acknowledged);
    } else {
      EvolvesRefl(s.core);
    }
    LogKeeps(b, WrotePubrel(id));
    EvolvesTrans(s.core, b, Log(b, WrotePubrel(id)));
    var t := s.(core := Log(b, WrotePubrel(id)));
    CoreKeeps(s, t.core);
    ReportKeeps(t, w);
    KeepsTrans(s, t, Report(t, w));
  }

  lemma SameKeeps(s: State, t: State)
    requires Good(s) && t.core == s.core && t.events == s.events
    ensures Keeps(s, t)
  {
    EvolvesRefl(s.core);
  }

  lemma SubackKeeps(s: State, id: nat, readable: bool, w: WriteResult)
    requires Good(s)
    ensures Keeps(s, ProcessReceive(s, Suback(id, readable), w).0)
  {
    hide CoreInv, Evolves;
    var i := IndexOfMatch(s.core.outbox, id, SUBSCRIBE);
    if i == |s.core.outbox| {
      SameKeeps(s, s);
    } else if readable {
      SettleKeeps(s, id, SUBSCRIBE, Granted, Subscribed);
    } else {
      StoredAgrees(s.core, i);
      DropState(s, i, Granted);
    }
  }

  lemma {:induction false} PartsKeep(s: State, n: nat)
    requires Good(s)
    ensures Keeps(s, Parts(s, n))
  {
    hide CoreInv, Evolves;
    SameKeeps(s, s);
    if n > 0 {
      PartsKeep(s, n - 1);
      DispatchKeeps(Parts(s, n - 1), DataArrived);
      KeepsTrans(s, Parts(s, n - 1), Parts(s, n));
    }
  }

  lemma PublishInKeeps(s: State, id: nat, qos: nat, parts: nat, delivered: bool, reported: bool, w: WriteResult)
    requires Good(s)
    ensures Keeps(s, ProcessReceive(s, Packet.Publish(id, qos, parts, delivered, reported), w).0)
  {
    hide CoreInv, Evolves, EntriesFit, PublishedIds, SettledIds;
    var t := Parts(s, parts);
    PartsKeep(s, parts);
    WriteOtherKeeps(t, PUBACK, id, w);
    KeepsTrans(s, t, WriteOther(t, PUBACK, id, w));
    WriteOtherKeeps(t, PUBREC, id, w);
    KeepsTrans(s, t, WriteOther(t, PUBREC, id, w));
    DispatchKeeps(t, ErrorEvent);
    KeepsTrans(s, t, Dispatch(t, ErrorEvent));
  }

  lemma ReplyKeeps(s: State, p: Packet, w: WriteResult)
    requires Good(s) && (p.Unsuback? || p.Puback? || p.Pubcomp?) && PacketIdOk(p)
    ensures Keeps(s, ProcessReceive(s, p, w).0)
  {
    hide CoreInv, Evolves;
    if p.Unsuback? {
      SettleKeeps(s, p.id, UNSUBSCRIBE, Granted, Unsubscribed);
    } else {
      SettleKeeps(s, p.id, PUBLISH, Fate.Published, MessagePublished(p.id));
    }
  }

  lemma PlainKeeps(s: State, p: Packet, w: WriteResult)
    requires Good(s) && (p.NoPacket? || p.ReceiveFailed? || p.Pingresp? || p.OtherPacket? || p.Pubrel?)
    ensures Keeps(s, ProcessReceive(s, p, w).0)
  {
    hide CoreInv, Evolves;
    if p.Pubrel? {
      WriteOtherKeeps(s, PUBCOMP, p.id, w);
    } else if p.ReceiveFailed? && p.reported {
      DispatchKeeps(s, ErrorEvent);
    } else {
      SameKeeps(s, ProcessReceive(s, p, w).0);
    }
  }

  lemma ReceiveKeeps(s: State, p: Packet, w: WriteResult)
    requires Good(s) && PacketIdOk(p)
    ensures Keeps(s, ProcessReceive(s, p, w).0)
  {
    hide CoreInv, Evolves;
    match p
    case Suback(id, readable) => SubackKeeps(s, id, readable, w);
    case Publish(id, qos, parts, delivered, reported) => PublishInKeeps(s, id, qos, parts, delivered, reported, w);
    case Pubrec(id) => PubrecKeeps(s, id, w);
    case Unsuback(_) => ReplyKeeps(s, p, w);
    case Puback(_) => ReplyKeeps(s, p, w);
    case Pubcomp(_) => ReplyKeeps(s, p, w);
    case _ => PlainKeeps(s, p, w);
  }

  lemma ResendItemKeeps(cfg: Config, s: State, i: nat, w: WriteResult)
    requires Good(s) && i < |s.core.outbox| && Rank(s.core.outbox[i].pending) < 2
    requires !FirstOut(s.core.outbox[i], w == WriteOk)
    ensures Keeps(s, ResendItem(cfg, s, i, w).0)
  {
    SendKeeps(s.core, i, w == WriteOk);
    var t := s.(core := Send(s.core, i, w == WriteOk), pendingQos := s.core.outbox[i].qos);
    if w != WriteOk {
      GiveUpKeeps(cfg, t, w);
      KeepsTrans(s, t, GiveUp(cfg, t, w));
    }
  }

  lemma ResendPubrelKeeps(cfg: Config, s: State, i: nat, w: WriteResult)
    requires Good(s) && i < |s.core.outbox|
    ensures Keeps(s, ResendPubrel(cfg, s, i, w))
  {
    LogKeeps(s.core, WrotePubrel(s.core.outbox[i].id));
    var t := s.(core := Log(s.core, WrotePubrel(s.core.outbox[i].id)), pendingQos := s.core.outbox[i].qos);
    if w != WriteOk {
      GiveUpKeeps(cfg, t, w);
      KeepsTrans(s, t, GiveUp(cfg, t, w));
    }
  }

  /** With distinct ids the search by id finds the item just sent. */
  lemma FoundById(c: Core, i: nat, complete: bool)
    requires CoreInv(c) && i < |c.outbox| && c.outbox[i].id != 0
    ensures IndexOfId(c.outbox, c.outbox[i].id) == i
    ensures IndexOfId(Send(c, i, complete).outbox, c.outbox[i].id) == i
  {
    var d := Send(c, i, complete);
    assert forall j :: 0 <= j < |c.outbox| ==> d.outbox[j].id == c.outbox[j].id;
  }

  lemma ResendQueuedKeeps(cfg: Config, s: State, i: nat, w: WriteResult)
    requires Good(s) && i < |s.core.outbox| && s.core.outbox[i].pending == Queued
    ensures Keeps(s, ResendQueued(cfg, s, i, w))
  {
    hide CoreInv, Evolves;
    var it := s.core.outbox[i];
    StoredAgrees(s.core, i);
    if w != WriteOk || (it.mtype != PUBLISH && it.qos == 0) {
      ResendItemKeeps(cfg, s, i, w);
    } else if it.mtype == PUBLISH && it.qos == 0 {
      ResendQos0Keeps(cfg, s, i);
    } else {
      FoundById(s.core, i, true);
      SendMarkKeeps(s.core, i);
    }
  }

  lemma ResendQos0Keeps(cfg: Config, s: State, i: nat)
    requires Good(s) && i < |s.core.outbox| && s.core.outbox[i].pending == Queued
    requires s.core.outbox[i].mtype == PUBLISH && s.core.outbox[i].qos == 0
    ensures Keeps(s, ResendQueued(cfg, s, i, WriteOk))
  {
    hide CoreInv, Evolves;
    var b := Send(s.core, i, true);
    SendDropKeeps(s.core, i);
    SendKeepsItems(s.core, i, true);
    assert b.outbox[i].serial == s.core.outbox[i].serial;
    QuietDrop(s.core, i);
  }

  lemma SentOrder(c: Core, i: nat)
    requires CoreInv(c) && i < |c.outbox|
    ensures var b := Send(c, i, true); Ordered(b.outbox) && b.outbox[i].serial == c.outbox[i].serial && b.ledger == c.ledger
  {
    var b := Send(c, i, true);
    assert forall j :: 0 <= j < |c.outbox| ==> b.outbox[j].serial == c.outbox[j].serial;
  }

  lemma SentFits(c: Core, i: nat)
    requires CoreInv(c) && i < |c.outbox| && EntriesFit(c.ledger) && c.outbox[i].mtype == PUBLISH && c.outbox[i].qos == 0
    ensures var n := c.outbox[i].serial;
      n < |c.ledger| && c.ledger[n].fate == InOutbox && EntryFits(c.ledger[n].(fate := SentQos0))
  {
    StoredAgrees(c, i);
  }

  /** Dropping a sent QoS 0 message settles nothing. */
  lemma QuietDrop(c: Core, i: nat)
    requires CoreInv(c) && i < |c.outbox| && EntriesFit(c.ledger) && c.outbox[i].mtype == PUBLISH && c.outbox[i].qos == 0
    ensures var d := Drop(Send(c, i, true), i, SentQos0); SettledIds(d.ledger) == SettledIds(c.ledger) && EntriesFit(d.ledger)
  {
    hide CoreInv, SettledIds, EntryFits, RemoveAt;
    SentFits(c, i);
    SentOrder(c, i);
    hide Send;
    RemoveAtPart(Send(c, i, true).outbox, i);
    CountRetire(c.ledger, {c.outbox[i].serial}, SentQos0);
  }

  lemma RetransmitKeeps(cfg: Config, s: State, input: TaskInput)
    requires Good(s)
    ensures Keeps(s, Retransmit(cfg, s, input))
  {
    hide CoreInv, Evolves;
    var s1 := s.(lastRetransmit := s.clock);
    EvolvesRefl(s.core);
    var i := IndexOfPending(s1.core.outbox, Transmitted);
    var s2 := if Due(cfg, s1, i) then ResendItem(cfg, s1, i, input.resendWrite).0 else s1;
    if Due(cfg, s1, i) { ResendItemKeeps(cfg, s1, i, input.resendWrite); }
    KeepsTrans(s, s1, s2);
    var j := IndexOfPending(s2.core.outbox, Acknowledged);
    if Due(cfg, s2, j) {
      ResendPubrelKeeps(cfg, s2, j, input.pubrelWrite);
      KeepsTrans(s, s2, ResendPubrel(cfg, s2, j, input.pubrelWrite));
    }
  }

  lemma ResendKeeps(cfg: Config, s: State, input: TaskInput)
    requires Good(s)
    ensures Keeps(s, Resend(cfg, s, input))
  {
    hide CoreInv, Evolves;
    var s1 := if s.lastRetransmit == 0 then s.(lastRetransmit := s.clock) else s;
    EvolvesRefl(s.core);
    var i := IndexOfPending(s1.core.outbox, Queued);
    if i < |s1.core.outbox| {
      ResendQueuedKeeps(cfg, s1, i, input.resendWrite);
    } else {
      RetransmitKeeps(cfg, s1, input);
    }
  }

  lemma KeepaliveKeeps(cfg: Config, s: State, w: WriteResult)
    requires Good(s)
    ensures Keeps(s, ProcessKeepalive(cfg, s, w).0)
  {
    hide CoreInv, Evolves;
    SameKeeps(s, s);
    AbortKeeps(cfg, s);
    OtherThenAbort(cfg, s, PINGREQ, 0, w);
  }

  lemma RefreshKeeps(cfg: Config, s: State)
    requires Good(s)
    ensures Keeps(s, Refresh(cfg, s))
  {
    hide CoreInv, Evolves;
    EvolvesRefl(s.core);
    AbortKeeps(cfg, s);
  }

  lemma {:induction false} CountQuiet(events: seq<Event>, extra: seq<Event>)
    requires forall i :: 0 <= i < |extra| ==> !extra[i].MessagePublished?
    ensures PublishedIds(events + extra) == PublishedIds(events)
  {
    if extra == [] {
      assert events + extra == events;
    } else {
      var front, last := extra[..|extra| - 1], extra[|extra| - 1];
      CountQuiet(events, front);
      CountDispatch(events + front, last);
      assert events + extra == (events + front) + [last];
    }
  }

  lemma InitKeeps(cfg: Config, s: State, c: ConnectResult)
    requires Good(s)
    ensures Keeps(s, IterateInit(cfg, s, c))
  {
    hide CoreInv, Evolves, PublishedIds, SettledIds, EntriesFit;
    var extra := InitEvents(c);
    EvolvesRefl(s.core);
    LogKeeps(s.core, SessionCore.WroteOther(CONNECT, 0));
    InitShape(cfg, s, c);
    CountQuiet(s.events, extra);
  }

  function InitEvents(c: ConnectResult): seq<Event> {
    match c
    case NoTransport => []
    case TransportRefused => [BeforeConnect, ErrorEvent, NowDisconnected]
    case Refused(reported) => if reported then [BeforeConnect, ErrorEvent, NowDisconnected] else [BeforeConnect, NowDisconnected]
    case Accepted => [BeforeConnect, NowConnected]
  }

  /** A connection attempt in terms of core and events only. */
  lemma InitShape(cfg: Config, s: State, c: ConnectResult)
    ensures var t := IterateInit(cfg, s, c);
      && t.core == (if c == Accepted || c.Refused? then Log(s.core, SessionCore.WroteOther(CONNECT, 0)) else s.core)
      && t.events == s.events + InitEvents(c)
  {
  }

  lemma ConnectedKeeps(cfg: Config, s: State, input: TaskInput)
    requires Good(s) && PacketIdOk(input.packet)
    ensures Keeps(s, IterateConnected(cfg, s, input))
  {
    hide CoreInv, Evolves;
    if s.disconnectBit {
      OtherThenAbort(cfg, s.(disconnectBit := false), DISCONNECT, 0, input.disconnectWrite);
    } else {
      var (s1, received) := ProcessReceive(s, input.packet, input.replyWrite);
      ReceiveKeeps(s, input.packet, input.replyWrite);
      if received {
        BusyKeeps(cfg, s1, input);
        KeepsTrans(s, s1, IterateConnected(cfg, s, input));
      } else {
        AbortKeeps(cfg, s1);
        KeepsTrans(s, s1, Abort(cfg, s1));
      }
    }
  }

  lemma BusyKeeps(cfg: Config, s1: State, input: TaskInput)
    requires Good(s1)
    ensures var (s2, alive) := ProcessKeepalive(cfg, Resend(cfg, s1, input), input.pingWrite);
      Keeps(s1, if alive then Refresh(cfg, s2) else s2)
  {
    hide CoreInv, Evolves;
    var r := Resend(cfg, s1, input);
    var (s2, alive) := ProcessKeepalive(cfg, r, input.pingWrite);
    ResendKeeps(cfg, s1, input);
    KeepaliveKeeps(cfg, r, input.pingWrite);
    KeepsTrans(s1, r, s2);
    RefreshKeeps(cfg, s2);
    KeepsTrans(s1, s2, Refresh(cfg, s2));
  }

  lemma IterateKeeps(cfg: Config, s: State, input: TaskInput)
    requires Good(s) && PacketIdOk(input.packet)
    ensures Keeps(s, Iterate(cfg, s, input))
  {
    hide CoreInv, Evolves, Iterate;
    var s1 := s.(core := Sweep(s.core, s.clock, cfg.expireMs));
    SweepState(s, s.clock, cfg.expireMs);
    AfterSweep(cfg, s, input);
    KeepsTrans(s, s1, Iterate(cfg, s, input));
  }

  /** An iteration starts with the sweep, and what follows takes nothing back. */
  lemma AfterSweep(cfg: Config, s: State, input: TaskInput)
    requires Good(s) && PacketIdOk(input.packet)
    ensures Keeps(s.(core := Sweep(s.core, s.clock, cfg.expireMs)), Iterate(cfg, s, input))
  {
    hide CoreInv, Evolves;
    var s1 := s.(core := Sweep(s.core, s.clock, cfg.expireMs));
    SweepState(s, s.clock, cfg.expireMs);
    InitKeeps(cfg, s1, input.connect);
    ConnectedKeeps(cfg, s1, input);
    SameKeeps(s1, IterateWait(cfg, s1));
    SameKeeps(s1, s1);
    IterateShape(cfg, s, input);
    var t := Iterate(cfg, s, input);
    assert Keeps(s1, t);
  }

  lemma IterateShape(cfg: Config, s: State, input: TaskInput)
    ensures var s1 := s.(core := Sweep(s.core, s.clock, cfg.expireMs));
      var t := Iterate(cfg, s, input);
      var u := match s.st
        case Disconnected => s1
        case Init => IterateInit(cfg, s1, input.connect)
        case Connected => IterateConnected(cfg, s1, input)
        case WaitReconnect => IterateWait(cfg, s1);
      t.core == u.core && t.events == u.events
  {
  }

  // ---- the API ------------------------------------------------------------------------------------------

  lemma StoredKeeps(s: State, mtype: nat, id: nat, qos: nat, packet: seq<byte>)
    requires Good(s) && packet != [] && DupOf(packet[0]) == 0 && mtype in {PUBLISH, SUBSCRIBE, UNSUBSCRIBE}
    requires if mtype == PUBLISH && qos == 0 then id == 0 else id != 0 && Fresh(s.core, id)
    ensures Keeps(s, Stored(s, mtype, id, qos, packet))
  {
    hide CoreInv, Evolves, PublishedIds, SettledIds;
    AddKeeps(s.core, id, mtype, qos, s.clock, packet);
    CountAdd(s.core.ledger, Entry(id, mtype, qos, packet, InOutbox));
  }

  lemma PacketHead(qos: nat, retain: nat, topic: seq<byte>, id: nat, payload: seq<byte>)
    requires qos < 3 && retain < 2
    ensures var p := PublishPacket(0, qos, retain, topic, id, payload); p != [] && DupOf(p[0]) == 0
  {
    HeaderFields(PUBLISH, 0, qos, retain);
  }

  /** Sending right after storing: write, renew the tick, mark; the marks may be taken in either order. */
  lemma SendNow(c: Core, id: nat, tick: int)
    requires CoreInv(c) && c.outbox != [] && id != 0
    requires var it := c.outbox[|c.outbox| - 1]; it.id == id && it.pending == Queued
    ensures var d := SetPending(SetTick(Send(c, |c.outbox| - 1, true), id, tick), id, Transmitted);
      CoreInv(d) && Evolves(c, d) && d.ledger == c.ledger
  {
    hide CoreInv, Evolves, IndexOfId;
    var i := |c.outbox| - 1;
    var b := Send(c, i, true);
    FoundById(c, i, true);
    SendMarkKeeps(c, i);
    var m := Mark(b, i, Transmitted);
    RetickKeeps(m, i, tick);
    EvolvesTrans(c, m, Retick(m, i, tick));
    TickThenMark(b, i, id, tick);
  }

  lemma TickThenMark(b: Core, i: nat, id: nat, tick: int)
    requires i < |b.outbox| && IndexOfId(b.outbox, id) == i
    ensures SetPending(SetTick(b, id, tick), id, Transmitted) == Retick(Mark(b, i, Transmitted), i, tick)
  {
    var r := SetTick(b, id, tick);
    assert forall j :: 0 <= j < |b.outbox| ==> r.outbox[j].id == b.outbox[j].id;
    assert IndexOfId(r.outbox, id) == i;
    assert Retick(Mark(b, i, Transmitted), i, tick).outbox == Mark(r, i, Transmitted).outbox;
  }

  lemma PublishNowKeeps(cfg: Config, s: State, id: nat, qos: nat, w: WriteResult)
    requires Good(s) && (qos > 0 ==> s.core.outbox != [] && id != 0)
    requires qos > 0 ==> var it := s.core.outbox[|s.core.outbox| - 1]; it.id == id && it.pending == Queued
    ensures Keeps(s, PublishNow(cfg, s, id, qos, w))
  {
    hide CoreInv, Evolves;
    if qos == 0 {
      DirectKeeps(cfg, s, id, w);
    } else if w == WriteOk {
      SendNow(s.core, id, s.clock);
    } else {
      var i := |s.core.outbox| - 1;
      var t := s.(core := Send(s.core, i, false));
      SendKeeps(s.core, i, false);
      CoreKeeps(s, t.core);
      GiveUpKeeps(cfg, t, w);
      KeepsTrans(s, t, GiveUp(cfg, t, w));
    }
  }

  lemma DirectKeeps(cfg: Config, s: State, id: nat, w: WriteResult)
    requires Good(s)
    ensures Keeps(s, PublishNow(cfg, s, id, 0, w))
  {
    hide CoreInv, Evolves;
    OtherThenAbort(cfg, s, PUBLISH, 0, w);
  }

  lemma PublishingKeeps(cfg: Config, s: State, topic: seq<byte>, payload: seq<byte>, qos: nat, retain: nat, drawn: nat, w: WriteResult)
    requires Good(s) && qos < 3 && retain < 2 && drawn != 0 && Fresh(s.core, drawn)
    ensures Keeps(s, Publishing(cfg, s, topic, payload, qos, retain, drawn, w))
  {
    hide CoreInv, Evolves, PublishPacket, Full, PublishedIds, SettledIds;
    SameKeeps(s, s);
    var id := IdFor(qos, drawn);
    var packet := PublishPacket(0, qos, retain, topic, id, payload);
    PacketHead(qos, retain, topic, id, payload);
    if qos > 0 {
      StoredKeeps(s, PUBLISH, id, qos, packet);
      var s1 := Stored(s, PUBLISH, id, qos, packet).(pendingQos := qos);
      PublishNowKeeps(cfg, s1, id, qos, w);
      KeepsTrans(s, s1, PublishNow(cfg, s1, id, qos, w));
    } else {
      PublishNowKeeps(cfg, s, id, qos, w);
    }
  }

  lemma EnqueuingKeeps(cfg: Config, s: State, topic: seq<byte>, payload: seq<byte>, qos: nat, retain: nat, drawn: nat, store: bool)
    requires Good(s) && qos < 3 && retain < 2 && drawn != 0 && Fresh(s.core, drawn)
    ensures Keeps(s, Enqueuing(cfg, s, topic, payload, qos, retain, drawn, store))
  {
    hide CoreInv, Evolves, PublishPacket;
    SameKeeps(s, s);
    var id := IdFor(qos, drawn);
    PacketHead(qos, retain, topic, id, payload);
    StoredKeeps(s, PUBLISH, id, qos, PublishPacket(0, qos, retain, topic, id, payload));
  }

  lemma AskingKeeps(s: State, mtype: nat, packet: seq<byte>, drawn: nat, w: WriteResult)
    requires Good(s) && mtype in {SUBSCRIBE, UNSUBSCRIBE} && packet != [] && DupOf(packet[0]) == 0 && drawn != 0 && Fresh(s.core, drawn)
    ensures Keeps(s, Asking(s, mtype, packet, drawn, w))
  {
    hide Evolves, CoreInv, EntriesFit, PublishedIds, SettledIds, Send, Mark;
    SameKeeps(s, s);
    if s.st == Connected {
      var i := |s.core.outbox|;
      var s1 := Stored(s, mtype, drawn, s.pendingQos, packet);
      StoredKeeps(s, mtype, drawn, s.pendingQos, packet);
      LastIndex(s.core.outbox, s1.core.outbox[i]);
      MarkSendKeeps(s1.core, i, w == WriteOk);
      var t := s1.(core := Send(Mark(s1.core, i, Transmitted), i, w == WriteOk));
      CoreKeeps(s1, t.core);
      ReportKeeps(t, w);
      KeepsTrans(s, s1, t);
      KeepsTrans(s, t, Report(t, w));
    }
  }

  /** Marking and then writing a message that is no PUBLISH. */
  lemma MarkSendKeeps(c: Core, i: nat, complete: bool)
    requires CoreInv(c) && i < |c.outbox| && c.outbox[i].mtype != PUBLISH && c.outbox[i].pending == Queued
    ensures |Mark(c, i, Transmitted).outbox| == |c.outbox|
    ensures var d := Send(Mark(c, i, Transmitted), i, complete); CoreInv(d) && Evolves(c, d) && d.ledger == c.ledger
  {
    hide Evolves, CoreInv;
    MarkKeeps(c, i, Transmitted);
    var b := Mark(c, i, Transmitted);
    SendKeeps(b, i, complete);
    EvolvesTrans(c, b, Send(b, i, complete));
  }

  // ---- runs -----------------------------------------------------------------------------------------------

  lemma NextKeeps(cfg: Config, s: State, step: Step)
    requires Good(s) && Allowed(s, step)
    ensures Keeps(s, Next(cfg, s, step))
  {
    hide CoreInv, Evolves, Iterate, Publishing, Enqueuing, Asking, Full, Clear, Fresh, Good, Keeps, Abort, WriteOther, PacketIdOk, DupOf;
    match step
    case TaskIteration(input) => IterateKeeps(cfg, s, input);
    case PollResult(failed) => PollKeeps(cfg, s, failed);
    case TaskEnd => EndKeeps(s);
    case ApiPublish(topic, payload, qos, retain, drawn, buildable, w) =>
      StillKeeps(s);
      PublishingKeeps(cfg, s, topic, payload, qos, retain, drawn, w);
    case ApiEnqueue(topic, payload, qos, retain, drawn, buildable, store) =>
      StillKeeps(s);
      EnqueuingKeeps(cfg, s, topic, payload, qos, retain, drawn, store);
    case ApiSubscribe(packet, drawn, w) =>
      StillKeeps(s);
      AskingKeeps(s, SUBSCRIBE, packet, drawn, w);
    case ApiUnsubscribe(packet, drawn, w) => AskingKeeps(s, UNSUBSCRIBE, packet, drawn, w);
    case ApiStop(w) =>
      StillKeeps(s);
      StopKeeps(s, w);
    case Tick(ms) => ControlKeeps(cfg, s, step);
    case ApiDisconnect => ControlKeeps(cfg, s, step);
    case ApiReconnect => ControlKeeps(cfg, s, step);
  }

  lemma StillKeeps(s: State)
    requires Good(s)
    ensures Keeps(s, s)
  {
    SameKeeps(s, s);
  }

  lemma ControlKeeps(cfg: Config, s: State, step: Step)
    requires Good(s) && (step.Tick? || step.ApiDisconnect? || step.ApiReconnect?)
    ensures Keeps(s, Next(cfg, s, step))
  {
    hide CoreInv, Evolves;
    SameKeeps(s, Next(cfg, s, step));
  }

  lemma PollKeeps(cfg: Config, s: State, failed: bool)
    requires Good(s)
    ensures Keeps(s, (if failed then Abort(cfg, s) else s).(place := LoopHead))
  {
    hide CoreInv, Evolves;
    SameKeeps(s, s);
    AbortKeeps(cfg, s);
  }

  lemma EndKeeps(s: State)
    requires Good(s)
    ensures Keeps(s, s.(core := Clear(s.core), st := Disconnected, place := Ended))
  {
    hide CoreInv, Evolves;
    ClearState(s);
  }

  lemma StopKeeps(s: State, w: WriteResult)
    requires Good(s)
    ensures Keeps(s, s.(run := false, st := Disconnected))
    ensures Keeps(s, WriteOther(s, DISCONNECT, 0, w).(run := false, st := Disconnected))
  {
    hide CoreInv, Evolves, WriteOther, PublishedIds, SettledIds, EntriesFit;
    SameKeeps(s, s);
    WriteOtherKeeps(s, DISCONNECT, 0, w);
  }

  lemma {:induction false} RunKeeps(cfg: Config, s: State, steps: seq<Step>)
    requires Good(s) && Runs(cfg, s, steps)
    ensures Keeps(s, Exec(cfg, s, steps))
    decreases |steps|
  {
    hide CoreInv, Evolves;
    if steps == [] {
      SameKeeps(s, s);
    } else {
      var t := Next(cfg, s, steps[0]);
      NextKeeps(cfg, s, steps[0]);
      RunKeeps(cfg, t, steps[1..]);
      KeepsTrans(s, t, Exec(cfg, t, steps[1..]));
    }
  }
}
