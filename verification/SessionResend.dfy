/** What a connected session sends again, and when: a message still queued first, otherwise once every retransmission time
    the oldest message that has waited longer than that, and the PUBREL of the oldest acknowledged one that has. */
module SessionResend {
  import opened Bytes
  import opened FixedHeader
  import opened OutboxSpec
  import opened SessionCore
  import opened Session
  import opened SessionProofs

  /** `i` is where the oldest message in state `p` is, or the number of messages if there is none. */
  predicate Oldest(items: seq<Item>, p: Pending, i: nat) {
    && i <= |items| && (i < |items| ==> items[i].pending == p)
    && forall k :: 0 <= k < i ==> items[k].pending != p
  }

  lemma OldestIsIndex(items: seq<Item>, p: Pending, i: nat)
    requires Oldest(items, p, i)
    ensures IndexOfPending(items, p) == i
  {
  }

  /** Bit 3 is set and the others are as they were. */
  predicate DupBitOnly(was: byte, h: byte) {
    h / 16 == was / 16 && h / 8 % 2 == 1 && h % 8 == was % 8
  }

  /** One write of a stored message that has gone out before: all as stored, but DUP set if it is a PUBLISH of QoS 1 or 2. */
  predicate WrittenAgain(w: Write, it: Item, complete: bool) {
    && w.WroteItem? && w.serial == it.serial && w.id == it.id && w.mtype == it.mtype && w.complete == complete
    && w.bytes != [] && it.data != [] && w.bytes[1..] == it.data[1..]
    && if it.mtype == PUBLISH && it.qos > 0 then DupBitOnly(it.data[0], w.bytes[0]) else w.bytes[0] == it.data[0]
  }

  /** Connected for a while with nothing queued, and the retransmission time has passed since the last round. */
  predicate RoundDue(cfg: Config, s: State) {
    && Oldest(s.core.outbox, Queued, |s.core.outbox|) && s.lastRetransmit != 0
    && s.lastRetransmit + cfg.retransmitMs <= s.clock < 0x8000_0000_0000_0000
  }

  lemma SentAgain(c: Core, i: nat, complete: bool)
    requires CoreInv(c) && i < |c.outbox| && c.outbox[i].pending == Transmitted
    ensures var d := Send(c, i, complete);
      && |d.writes| == |c.writes| + 1 && d.writes[..|c.writes|] == c.writes
      && WrittenAgain(d.writes[|c.writes|], c.outbox[i], complete)
      && d.outbox == c.outbox[i := c.outbox[i].(data := d.writes[|c.writes|].bytes)] && d.ledger == c.ledger
  {
    StoredAgrees(c, i);
    var it := c.outbox[i];
    DupSet(it.data[0]);
  }

  lemma DupSet(h: byte)
    ensures DupBitOnly(h, WithDup(h))
  {
  }

  /** What goes out in a round. */
  ghost predicate RoundWrites(cfg: Config, s: State, input: TaskInput, i: nat, j: nat, more: seq<Write>) {
    var items := s.core.outbox;
    var again := i < |items| && s.clock - items[i].tick > cfg.retransmitMs;
    var release := j < |items| && s.clock - items[j].tick > cfg.retransmitMs;
    && |more| == (if again then 1 else 0) + (if release then 1 else 0)
    && (again ==> WrittenAgain(more[0], items[i], input.resendWrite == WriteOk))
    && (release ==> more[|more| - 1] == WrotePubrel(items[j].id))
  }

  lemma ItemCore(cfg: Config, s: State, i: nat, w: WriteResult)
    requires i < |s.core.outbox|
    ensures var t := ResendItem(cfg, s, i, w).0;
      t.core == Send(s.core, i, w == WriteOk) && t.clock == s.clock && t.lastRetransmit == s.lastRetransmit
  {
    hide Send;
  }

  lemma PubrelCore(cfg: Config, s: State, i: nat, w: WriteResult)
    requires i < |s.core.outbox|
    ensures var t := ResendPubrel(cfg, s, i, w);
      t.core == Log(s.core, WrotePubrel(s.core.outbox[i].id)) && t.clock == s.clock && t.lastRetransmit == s.lastRetransmit
  {
  }

  /** Only stored bytes may differ. */
  ghost predicate SameStanding(c: Core, d: Core) {
    && d.ledger == c.ledger && |d.outbox| == |c.outbox|
    && forall k :: 0 <= k < |c.outbox| ==> d.outbox[k] == c.outbox[k].(data := d.outbox[k].data)
  }

  /** First the message, if it is due. */
  function AfterItem(cfg: Config, c: Core, clock: nat, i: nat, complete: bool): Core {
    if i < |c.outbox| && clock - c.outbox[i].tick > cfg.retransmitMs then Send(c, i, complete) else c
  }

  lemma ItemRound(cfg: Config, c: Core, clock: nat, i: nat, j: nat, complete: bool)
    requires CoreInv(c) && Oldest(c.outbox, Transmitted, i) && Oldest(c.outbox, Acknowledged, j)
    ensures var d := AfterItem(cfg, c, clock, i, complete); var n := |c.writes|;
      && SameStanding(c, d) && Oldest(d.outbox, Acknowledged, j) && n <= |d.writes| && d.writes[..n] == c.writes
      && if i < |c.outbox| && clock - c.outbox[i].tick > cfg.retransmitMs
         then |d.writes| == n + 1 && WrittenAgain(d.writes[n], c.outbox[i], complete) else d == c
  {
    hide CoreInv, WrittenAgain, Send;
    if i < |c.outbox| { SentAgain(c, i, complete); }
  }

  lemma RoundCore(cfg: Config, s: State, input: TaskInput, i: nat, j: nat)
    requires i <= |s.core.outbox| && IndexOfPending(s.core.outbox, Transmitted) == i
    requires var d := AfterItem(cfg, s.core, s.clock, i, input.resendWrite == WriteOk);
      IndexOfPending(d.outbox, Acknowledged) == j
    ensures var d := AfterItem(cfg, s.core, s.clock, i, input.resendWrite == WriteOk); var t := Retransmit(cfg, s, input);
      && t.lastRetransmit == s.clock
      && t.core == if j < |d.outbox| && s.clock - d.outbox[j].tick > cfg.retransmitMs then Log(d, WrotePubrel(d.outbox[j].id)) else d
  {
    hide Send, ResendItem, ResendPubrel;
    var s1 := s.(lastRetransmit := s.clock);
    if Due(cfg, s1, i) { ItemCore(cfg, s1, i, input.resendWrite); }
    var s2 := if Due(cfg, s1, i) then ResendItem(cfg, s1, i, input.resendWrite).0 else s1;
    if Due(cfg, s2, j) { PubrelCore(cfg, s2, j, input.pubrelWrite); }
  }

  /** In a round the oldest transmitted message and the oldest acknowledged one are each seen to if, and only if, they
      have waited longer than the retransmission time; nothing else goes out, and nothing leaves the outbox or changes its state. */
  lemma RoundExactly(cfg: Config, s: State, input: TaskInput, i: nat, j: nat)
    requires Good(s) && RoundDue(cfg, s) && Oldest(s.core.outbox, Transmitted, i) && Oldest(s.core.outbox, Acknowledged, j)
    ensures var t := Resend(cfg, s, input); var n := |s.core.writes|;
      && n <= |t.core.writes| && t.core.writes[..n] == s.core.writes
      && RoundWrites(cfg, s, input, i, j, t.core.writes[n..])
      && t.lastRetransmit == s.clock && t.core.ledger == s.core.ledger && |t.core.outbox| == |s.core.outbox|
      && forall k :: 0 <= k < |s.core.outbox| ==> t.core.outbox[k] == s.core.outbox[k].(data := t.core.outbox[k].data)
  {
    hide CoreInv, Send, Retransmit, WrittenAgain, IndexOfPending, HasTimedOut;
    var c, complete := s.core, input.resendWrite == WriteOk;
    HasTimedOutExact(s.lastRetransmit, cfg.retransmitMs, s.clock);
    OldestIsIndex(c.outbox, Queued, |c.outbox|);
    OldestIsIndex(c.outbox, Transmitted, i);
    ItemRound(cfg, c, s.clock, i, j, complete);
    hide AfterItem;
    OldestIsIndex(AfterItem(cfg, c, s.clock, i, complete).outbox, Acknowledged, j);
    RoundCore(cfg, s, input, i, j);
  }

  /** Between rounds, and for as long as the connection is new, nothing goes out but queued messages. */
  lemma NothingBetween(cfg: Config, s: State, input: TaskInput)
    requires Oldest(s.core.outbox, Queued, |s.core.outbox|) && cfg.retransmitMs > 0
    requires s.lastRetransmit + cfg.retransmitMs < 0x8000_0000_0000_0000 && s.clock + cfg.retransmitMs < 0x8000_0000_0000_0000
    requires s.lastRetransmit == 0 || s.clock < s.lastRetransmit + cfg.retransmitMs
    ensures Resend(cfg, s, input) == s.(lastRetransmit := if s.lastRetransmit == 0 then s.clock else s.lastRetransmit)
  {
    OldestIsIndex(s.core.outbox, Queued, |s.core.outbox|);
    var last := if s.lastRetransmit == 0 then s.clock else s.lastRetransmit;
    HasTimedOutExact(last, cfg.retransmitMs, s.clock);
  }

  /** What becomes of a queued message: written once just as it is stored; QoS 0 is done with when the write succeeds, QoS 1
      and 2 then wait for their acknowledgement, and a write that fails ends the connection and leaves the message queued. */
  ghost predicate QueuedWritten(cfg: Config, s: State, t: State, i: nat, w: WriteResult)
    requires i < |s.core.outbox|
  {
    var items := s.core.outbox;
    var it := items[i];
    && t.core.writes == s.core.writes + [WroteItem(it.serial, it.id, it.mtype, it.data, w == WriteOk)]
    && (w != WriteOk ==>
         && t.core.outbox == items && t.core.ledger == s.core.ledger && t.st == WaitReconnect
         && t.waitTimeout == cfg.reconnectMs && t.reconnectTick == s.clock
         && t.events == s.events + (if w == WriteError then [ErrorEvent] else []) + [NowDisconnected])
    && (w == WriteOk ==> t.events == s.events && t.st == s.st)
    && (w == WriteOk && it.qos > 0 ==>
         t.core.outbox == items[i := it.(pending := Transmitted)] && t.core.ledger == s.core.ledger)
    && (w == WriteOk && it.qos == 0 && it.mtype == PUBLISH ==>
         && t.core.outbox == items[..i] + items[i + 1..] && it.serial !in Serials(t.core.outbox)
         && |t.core.ledger| == |s.core.ledger| && it.serial < |s.core.ledger|
         && forall n :: 0 <= n < |s.core.ledger| ==>
              t.core.ledger[n] == if n == it.serial then s.core.ledger[n].(fate := SentQos0) else s.core.ledger[n])
  }

  lemma QueuedFails(cfg: Config, s: State, i: nat, w: WriteResult)
    requires i < |s.core.outbox| && s.core.outbox[i].pending == Queued && w != WriteOk
    ensures QueuedWritten(cfg, s, ResendQueued(cfg, s, i, w), i, w)
  {
    assert s.core.outbox[i := s.core.outbox[i]] == s.core.outbox;
    assert s.events + [] == s.events;
  }

  /** The core after a queued message has gone out and is kept. */
  lemma MarkedCore(c: Core, i: nat)
    requires CoreInv(c) && i < |c.outbox| && c.outbox[i].pending == Queued && c.outbox[i].id != 0
    ensures var it := c.outbox[i]; var d := SetPending(Send(c, i, true), it.id, Transmitted);
      && d.writes == c.writes + [WroteItem(it.serial, it.id, it.mtype, it.data, true)] && d.ledger == c.ledger
      && d.outbox == c.outbox[i := it.(pending := Transmitted)]
  {
    FoundById(c, i, true);
    hide CoreInv, IndexOfId;
  }

  lemma QueuedMarked(cfg: Config, s: State, i: nat)
    requires Good(s) && i < |s.core.outbox| && s.core.outbox[i].pending == Queued
    requires s.core.outbox[i].qos > 0 || s.core.outbox[i].mtype != PUBLISH
    ensures QueuedWritten(cfg, s, ResendQueued(cfg, s, i, WriteOk), i, WriteOk)
  {
    hide CoreInv, SetPending, Drop;
    StoredAgrees(s.core, i);
    MarkedCore(s.core, i);
  }

  lemma QueuedDropped(cfg: Config, s: State, i: nat)
    requires Good(s) && i < |s.core.outbox| && s.core.outbox[i].pending == Queued
    requires s.core.outbox[i].qos == 0 && s.core.outbox[i].mtype == PUBLISH
    ensures QueuedWritten(cfg, s, ResendQueued(cfg, s, i, WriteOk), i, WriteOk)
  {
    StoredAgrees(s.core, i);
    var b := Send(s.core, i, true);
    assert b.outbox == s.core.outbox;
    StoredOrder(s.core);
    hide CoreInv, Agrees;
    RemoveAtPart(s.core.outbox, i);
    assert s.core.outbox[i].serial in Serials(b.outbox) - Serials(RemoveAt(b.outbox, i));
  }

  /** The last round is no concern of a queued message. */
  lemma QueuedAlone(cfg: Config, s: State, last: nat, t: State, i: nat, w: WriteResult)
    requires i < |s.core.outbox|
    ensures QueuedWritten(cfg, s.(lastRetransmit := last), t, i, w) == QueuedWritten(cfg, s, t, i, w)
  {
  }

  /** With messages queued just the oldest of them is written, and that whatever the clock says. */
  lemma OldestQueuedFirst(cfg: Config, s: State, input: TaskInput, i: nat)
    requires Good(s) && i < |s.core.outbox| && Oldest(s.core.outbox, Queued, i)
    ensures QueuedWritten(cfg, s, Resend(cfg, s, input), i, input.resendWrite)
  {
    hide CoreInv, ResendQueued, QueuedWritten, HasTimedOut;
    OldestIsIndex(s.core.outbox, Queued, i);
    var s1 := if s.lastRetransmit == 0 then s.(lastRetransmit := s.clock) else s;
    var w := input.resendWrite;
    if w != WriteOk {
      QueuedFails(cfg, s1, i, w);
    } else if s.core.outbox[i].qos == 0 && s.core.outbox[i].mtype == PUBLISH {
      QueuedDropped(cfg, s1, i);
    } else {
      QueuedMarked(cfg, s1, i);
    }
    QueuedAlone(cfg, s, s1.lastRetransmit, ResendQueued(cfg, s1, i, w), i, w);
  }
}
