/** The outbox side of the session: stored messages, what became of each, and what was written. */
module SessionCore {
  import opened Bytes
  import opened FixedHeader
  import opened OutboxSpec

  /** What became of a stored message. */
  datatype Fate = InOutbox | Published | Granted | SentQos0 | TimedOut | Cleared

  /** One entry for every message ever stored, indexed by its serial. */
  datatype Entry = Entry(id: nat, mtype: nat, qos: nat, packet: seq<byte>, fate: Fate)

  /** Attempts to write: a stored message, a PUBREL, or a packet of another type and its id, 0 for none. `complete` says
      all bytes went out. */
  datatype Write =
    | WroteItem(serial: nat, id: nat, mtype: nat, bytes: seq<byte>, complete: bool)
    | WrotePubrel(id: nat)
    | WroteOther(mtype: nat, id: nat)

  datatype Core = Core(outbox: seq<Item>, ledger: seq<Entry>, writes: seq<Write>)

  function Rank(p: Pending): nat {
    match p
    case Queued => 0
    case Transmitted => 1
    case Acknowledged => 2
    case Confirmed => 3
  }

  // ---- the operations ----------------------------------------------------------------------

  function Add(c: Core, id: nat, mtype: nat, qos: nat, tick: int, packet: seq<byte>): Core {
    c.(outbox := c.outbox + [Item(|c.ledger|, id, mtype, qos, tick, Queued, packet)],
       ledger := c.ledger + [Entry(id, mtype, qos, packet, InOutbox)])
  }

  /** Everything in `gone` meets its fate. */
  function Retire(ledger: seq<Entry>, gone: set<nat>, fate: Fate): (r: seq<Entry>)
    ensures |r| == |ledger|
  {
    seq(|ledger|, n requires 0 <= n < |ledger| => if n in gone then ledger[n].(fate := fate) else ledger[n])
  }

  function Serials(items: seq<Item>): set<nat> {
    set i | 0 <= i < |items| :: items[i].serial
  }

  /** Only `kept` stays; the rest of the outbox meets its fate. */
  function Shrink(c: Core, kept: seq<Item>, fate: Fate): Core {
    Core(kept, Retire(c.ledger, Serials(c.outbox) - Serials(kept), fate), c.writes)
  }

  function Drop(c: Core, i: nat, fate: Fate): Core
    requires i < |c.outbox|
  {
    Shrink(c, RemoveAt(c.outbox, i), fate)
  }

  function Sweep(c: Core, now: int, timeout: int): Core {
    Shrink(c, KeepFresh(c.outbox, now, timeout), TimedOut)
  }

  function Clear(c: Core): Core {
    Shrink(c, [], Cleared)
  }

  function Mark(c: Core, i: nat, p: Pending): Core
    requires i < |c.outbox|
  {
    c.(outbox := c.outbox[i := c.outbox[i].(pending := p)])
  }

  function Retick(c: Core, i: nat, tick: int): Core
    requires i < |c.outbox|
  {
    c.(outbox := c.outbox[i := c.outbox[i].(tick := tick)])
  }

  predicate NeedsDup(it: Item) {
    it.mtype == PUBLISH && it.qos > 0 && it.pending == Transmitted && it.data != []
  }

  /** Writing a stored message; the stored copy of a retransmitted PUBLISH gets its DUP bit first. */
  function Send(c: Core, i: nat, complete: bool): Core
    requires i < |c.outbox|
  {
    var it := c.outbox[i];
    var data := if NeedsDup(it) then it.data[0 := WithDup(it.data[0])] else it.data;
    c.(outbox := c.outbox[i := it.(data := data)],
       writes := c.writes + [WroteItem(it.serial, it.id, it.mtype, data, complete)])
  }

  function Log(c: Core, w: Write): Core {
    c.(writes := c.writes + [w])
  }

  // ---- what every reachable core satisfies --------------------------------------------------

  predicate Completed(writes: seq<Write>, serial: nat) {
    exists k :: 0 <= k < |writes| && writes[k].WroteItem? && writes[k].serial == serial && writes[k].complete
  }

  /** A stored item and its ledger entry: same message, DUP aside, and the state tells whether a PUBLISH got out. */
  predicate Agrees(it: Item, e: Entry, writes: seq<Write>) {
    && it.id == e.id && it.mtype == e.mtype && it.qos == e.qos && e.fate == InOutbox && it.pending != Confirmed
    && e.packet != [] && DupOf(e.packet[0]) == 0
    && (it.data == e.packet || it.data == e.packet[0 := WithDup(e.packet[0])])
    && (it.mtype == PUBLISH ==>
         && (it.pending == Queued ==> !Completed(writes, it.serial))
         && (it.pending == Transmitted ==> Completed(writes, it.serial))
         && (it.qos == 0 || it.pending == Queued ==> it.data == e.packet)
         && (it.qos > 0 <==> it.id != 0))
    && it.mtype in {PUBLISH, SUBSCRIBE, UNSUBSCRIBE}
    && (it.mtype != PUBLISH ==> it.id != 0 && it.data == e.packet)
  }

  /** A written PUBLISH has DUP set exactly if an earlier write of the same message went out whole. */
  predicate DupExact(writes: seq<Write>, ledger: seq<Entry>, k: nat)
    requires k < |writes|
  {
    var w := writes[k];
    w.WroteItem? ==>
      && w.serial < |ledger| && w.bytes != []
      && var e := ledger[w.serial];
         && w.id == e.id && w.mtype == e.mtype && e.packet != []
         && w.bytes == (if w.mtype == PUBLISH && e.qos > 0 && Completed(writes[..k], w.serial)
                        then e.packet[0 := WithDup(e.packet[0])] else e.packet)
  }

  predicate Ordered(items: seq<Item>) {
    forall i, j :: 0 <= i < j < |items| ==> items[i].serial < items[j].serial
  }

  predicate PartOf(part: seq<Item>, items: seq<Item>) {
    forall j :: 0 <= j < |part| ==> part[j] in items
  }

  /** Stored QoS 0 messages all have id 0; apart from them no two stored messages share an id. */
  predicate DistinctIds(items: seq<Item>) {
    forall i, j :: 0 <= i < j < |items| && items[i].id == items[j].id ==> items[i].id == 0
  }

  predicate AllAgree(c: Core) {
    forall i :: 0 <= i < |c.outbox| ==>
      c.outbox[i].serial < |c.ledger| && Agrees(c.outbox[i], c.ledger[c.outbox[i].serial], c.writes)
  }

  predicate Covered(c: Core) {
    forall n :: 0 <= n < |c.ledger| && c.ledger[n].fate == InOutbox ==> n in Serials(c.outbox)
  }

  predicate AllExact(writes: seq<Write>, ledger: seq<Entry>) {
    forall k :: 0 <= k < |writes| ==> DupExact(writes, ledger, k)
  }

  predicate CoreInv(c: Core) {
    Ordered(c.outbox) && DistinctIds(c.outbox) && AllAgree(c) && Covered(c) && AllExact(c.writes, c.ledger)
  }

  // ---- what every step keeps -----------------------------------------------------------------

  predicate SameMessage(a: Entry, b: Entry) {
    && a.id == b.id && a.mtype == b.mtype && a.qos == b.qos && a.packet == b.packet
    && (a.fate == InOutbox || b.fate == a.fate)
  }

  /** Only messages in the outbox, or stored since, are written. */
  predicate WrittenFrom(c: Core, w: Write) {
    w.WroteItem? ==> w.serial >= |c.ledger| || c.ledger[w.serial].fate == InOutbox
  }

  /** Once item `it` has been acknowledged, it is not written again, and no PUBLISH with its id is while it stays. */
  predicate Quiet(it: Item, w: Write, stays: bool) {
    w.WroteItem? && Rank(it.pending) >= 2 ==>
      w.serial != it.serial && (stays && it.id != 0 ==> w.id != it.id)
  }

  predicate Evolves(c: Core, d: Core) {
    && |c.ledger| <= |d.ledger| && |c.writes| <= |d.writes| && c.writes == d.writes[..|c.writes|]
    && (forall n :: 0 <= n < |c.ledger| ==> SameMessage(c.ledger[n], d.ledger[n]))
    && (forall i, j :: 0 <= i < |c.outbox| && 0 <= j < |d.outbox| && c.outbox[i].serial == d.outbox[j].serial
         ==> Rank(c.outbox[i].pending) <= Rank(d.outbox[j].pending))
    && (forall k :: |c.writes| <= k < |d.writes| ==> WrittenFrom(c, d.writes[k]))
    && (forall i, k :: 0 <= i < |c.outbox| && |c.writes| <= k < |d.writes|
         ==> Quiet(c.outbox[i], d.writes[k], c.outbox[i].serial in Serials(d.outbox)))
  }

  lemma EvolvesRefl(c: Core)
    requires CoreInv(c)
    ensures Evolves(c, c)
  {
  }

  /** An item of the first core that is still there in the last was there in between. */
  lemma StaysBetween(b: Core, d: Core, n: nat)
    requires CoreInv(b) && CoreInv(d) && Evolves(b, d) && n < |b.ledger| && n in Serials(d.outbox)
    ensures n in Serials(b.outbox)
  {
    var j :| 0 <= j < |d.outbox| && d.outbox[j].serial == n;
    assert Agrees(d.outbox[j], d.ledger[n], d.writes);
  }

  lemma EvolvesTrans(c: Core, b: Core, d: Core)
    requires CoreInv(c) && CoreInv(b) && CoreInv(d) && Evolves(c, b) && Evolves(b, d)
    ensures Evolves(c, d)
  {
    forall i, j | 0 <= i < |c.outbox| && 0 <= j < |d.outbox| && c.outbox[i].serial == d.outbox[j].serial
      ensures Rank(c.outbox[i].pending) <= Rank(d.outbox[j].pending)
    {
      StaysBetween(b, d, c.outbox[i].serial);
    }
    forall k | |c.writes| <= k < |d.writes|
      ensures WrittenFrom(c, d.writes[k])
    {
      if k < |b.writes| { assert d.writes[k] == b.writes[k]; }
    }
    forall i, k | 0 <= i < |c.outbox| && |c.writes| <= k < |d.writes|
      ensures Quiet(c.outbox[i], d.writes[k], c.outbox[i].serial in Serials(d.outbox))
    {
      QuietTrans(c, b, d, i, k);
    }
  }

  lemma QuietTrans(c: Core, b: Core, d: Core, i: nat, k: nat)
    requires CoreInv(c) && CoreInv(b) && CoreInv(d) && Evolves(c, b) && Evolves(b, d)
    requires i < |c.outbox| && |c.writes| <= k < |d.writes|
    ensures Quiet(c.outbox[i], d.writes[k], c.outbox[i].serial in Serials(d.outbox))
  {
    var it, w := c.outbox[i], d.writes[k];
    if it.serial in Serials(d.outbox) { StaysBetween(b, d, it.serial); }
    if k < |b.writes| {
      assert w == b.writes[k];
    } else if it.serial in Serials(b.outbox) {
      var j :| 0 <= j < |b.outbox| && b.outbox[j].serial == it.serial;
      assert Agrees(it, c.ledger[it.serial], c.writes) && Agrees(b.outbox[j], b.ledger[it.serial], b.writes);
      assert Quiet(b.outbox[j], w, it.serial in Serials(d.outbox));
    } else {
      assert WrittenFrom(b, w);
    }
  }

  // ---- each operation keeps the invariant -----------------------------------------------------

  lemma AddKeeps(c: Core, id: nat, mtype: nat, qos: nat, tick: int, packet: seq<byte>)
    requires CoreInv(c) && packet != [] && DupOf(packet[0]) == 0 && mtype in {PUBLISH, SUBSCRIBE, UNSUBSCRIBE}
    requires if mtype == PUBLISH && qos == 0 then id == 0 else id != 0 && Fresh(c, id)
    ensures CoreInv(Add(c, id, mtype, qos, tick, packet)) && Evolves(c, Add(c, id, mtype, qos, tick, packet))
  {
    var d := Add(c, id, mtype, qos, tick, packet);
    AddKeepsWrites(c, d);
    AddKeepsItems(c, id, mtype, qos, tick, packet);
    assert d.outbox[|c.outbox|].serial == |c.ledger|;
    forall n | n in Serials(c.outbox)
      ensures n in Serials(d.outbox)
    {
      var i :| 0 <= i < |c.outbox| && c.outbox[i].serial == n;
      assert d.outbox[i].serial == n;
    }
    AddEvolves(c, id, mtype, qos, tick, packet);
  }

  lemma AddKeepsItems(c: Core, id: nat, mtype: nat, qos: nat, tick: int, packet: seq<byte>)
    requires CoreInv(c) && packet != [] && DupOf(packet[0]) == 0 && !Completed(c.writes, |c.ledger|)
    requires mtype in {PUBLISH, SUBSCRIBE, UNSUBSCRIBE}
    requires if mtype == PUBLISH && qos == 0 then id == 0 else id != 0 && Fresh(c, id)
    ensures var d := Add(c, id, mtype, qos, tick, packet); Ordered(d.outbox) && DistinctIds(d.outbox) && AllAgree(d)
  {
    var d := Add(c, id, mtype, qos, tick, packet);
    forall i | 0 <= i < |d.outbox|
      ensures d.outbox[i].serial < |d.ledger| && Agrees(d.outbox[i], d.ledger[d.outbox[i].serial], d.writes)
    {
      if i < |c.outbox| { assert Agrees(c.outbox[i], c.ledger[c.outbox[i].serial], c.writes); }
    }
  }

  lemma AddEvolves(c: Core, id: nat, mtype: nat, qos: nat, tick: int, packet: seq<byte>)
    requires CoreInv(c)
    ensures Evolves(c, Add(c, id, mtype, qos, tick, packet))
  {
    var d := Add(c, id, mtype, qos, tick, packet);
    assert forall i :: 0 <= i < |c.outbox| ==> d.outbox[i] == c.outbox[i];
  }

  lemma AddKeepsWrites(c: Core, d: Core)
    requires CoreInv(c) && d.writes == c.writes && |d.ledger| == |c.ledger| + 1 && d.ledger[..|c.ledger|] == c.ledger
    ensures AllExact(d.writes, d.ledger)
    ensures !Completed(d.writes, |c.ledger|)
  {
    forall k | 0 <= k < |c.writes|
      ensures DupExact(d.writes, d.ledger, k) && (c.writes[k].WroteItem? ==> c.writes[k].serial < |c.ledger|)
    {
      assert DupExact(c.writes, c.ledger, k);
      if c.writes[k].WroteItem? { assert d.ledger[c.writes[k].serial] == c.ledger[c.writes[k].serial]; }
    }
  }

  predicate Fresh(c: Core, id: nat) {
    forall i :: 0 <= i < |c.outbox| ==> c.outbox[i].id != id
  }

  /** Removing some items: the rest keep their order, and exactly the removed ones meet their fate. */
  lemma ShrinkKeeps(c: Core, kept: seq<Item>, fate: Fate)
    requires CoreInv(c) && Ordered(kept) && PartOf(kept, c.outbox) && fate != InOutbox
    ensures CoreInv(Shrink(c, kept, fate)) && Evolves(c, Shrink(c, kept, fate))
  {
    var d := Shrink(c, kept, fate);
    ShrinkKeepsItems(c, kept, fate);
    forall n | 0 <= n < |c.ledger|
      ensures SameMessage(c.ledger[n], d.ledger[n])
      ensures d.ledger[n].fate == InOutbox ==> n in Serials(d.outbox)
    {
      if n in Serials(c.outbox) {
        var i :| 0 <= i < |c.outbox| && c.outbox[i].serial == n;
        assert Agrees(c.outbox[i], c.ledger[n], c.writes);
      }
    }
    forall k | 0 <= k < |d.writes|
      ensures DupExact(d.writes, d.ledger, k)
    {
      assert DupExact(c.writes, c.ledger, k);
    }
  }

  lemma ShrinkKeepsItems(c: Core, kept: seq<Item>, fate: Fate)
    requires CoreInv(c) && Ordered(kept) && PartOf(kept, c.outbox) && fate != InOutbox
    ensures var d := Shrink(c, kept, fate);
      AllAgree(d) && DistinctIds(kept)
      && (forall i, j :: 0 <= i < |c.outbox| && 0 <= j < |kept| && c.outbox[i].serial == kept[j].serial ==> c.outbox[i] == kept[j])
  {
    hide Agrees;
    var d := Shrink(c, kept, fate);
    PartDistinct(c.outbox, kept);
    forall j | 0 <= j < |kept|
      ensures kept[j].serial < |d.ledger| && Agrees(kept[j], d.ledger[kept[j].serial], d.writes)
    {
      var i :| 0 <= i < |c.outbox| && c.outbox[i] == kept[j];
      assert kept[j].serial in Serials(kept);
    }
  }

  /** Part of an ordered list with distinct ids: serials and ids still tell items apart. */
  lemma PartDistinct(items: seq<Item>, kept: seq<Item>)
    requires Ordered(items) && DistinctIds(items) && Ordered(kept) && PartOf(kept, items)
    ensures DistinctIds(kept)
    ensures forall i, j :: 0 <= i < |items| && 0 <= j < |kept| && items[i].serial == kept[j].serial ==> items[i] == kept[j]
  {
    forall i, j | 0 <= i < |items| && 0 <= j < |kept| && items[i].serial == kept[j].serial
      ensures items[i] == kept[j]
    {
      var k :| 0 <= k < |items| && items[k] == kept[j];
    }
    forall i, j | 0 <= i < j < |kept| && kept[i].id == kept[j].id
      ensures kept[i].id == 0
    {
      var k :| 0 <= k < |items| && items[k] == kept[i];
      var l :| 0 <= l < |items| && items[l] == kept[j];
      assert k != l;
    }
  }

  lemma RemoveAtPart(items: seq<Item>, i: nat)
    requires Ordered(items) && i < |items|
    ensures Ordered(RemoveAt(items, i)) && PartOf(RemoveAt(items, i), items)
    ensures Serials(items) - Serials(RemoveAt(items, i)) == {items[i].serial}
  {
    var r := RemoveAt(items, i);
    assert forall j :: 0 <= j < |r| ==> r[j] == items[if j < i then j else j + 1];
    forall j | 0 <= j < |items| && j != i
      ensures items[j].serial in Serials(r)
    {
      assert r[if j < i then j else j - 1] == items[j];
    }
  }

  lemma DropKeeps(c: Core, i: nat, fate: Fate)
    requires CoreInv(c) && i < |c.outbox| && fate != InOutbox
    ensures CoreInv(Drop(c, i, fate)) && Evolves(c, Drop(c, i, fate))
  {
    RemoveAtPart(c.outbox, i);
    ShrinkKeeps(c, RemoveAt(c.outbox, i), fate);
  }

  lemma {:induction false} KeepFreshOrder(items: seq<Item>, now: int, timeout: int)
    requires Ordered(items)
    ensures Ordered(KeepFresh(items, now, timeout)) && PartOf(KeepFresh(items, now, timeout), items)
  {
    if items != [] {
      var front, last := items[..|items| - 1], items[|items| - 1];
      KeepFreshOrder(front, now, timeout);
      var r := KeepFresh(front, now, timeout);
      forall j | 0 <= j < |r|
        ensures r[j].serial < last.serial && r[j] in items
      {
        var it := r[j];
        assert it in front;
      }
    }
  }

  lemma SweepKeeps(c: Core, now: int, timeout: int)
    requires CoreInv(c)
    ensures CoreInv(Sweep(c, now, timeout)) && Evolves(c, Sweep(c, now, timeout))
  {
    KeepFreshOrder(c.outbox, now, timeout);
    ShrinkKeeps(c, KeepFresh(c.outbox, now, timeout), TimedOut);
  }

  lemma ClearKeeps(c: Core)
    requires CoreInv(c)
    ensures CoreInv(Clear(c)) && Evolves(c, Clear(c))
  {
    ShrinkKeeps(c, [], Cleared);
  }

  /** The same items at the same places, each still in agreement with its entry. */
  lemma SameItems(c: Core, d: Core)
    requires CoreInv(c) && d.ledger == c.ledger && |d.outbox| == |c.outbox|
    requires forall j :: 0 <= j < |d.outbox| ==>
      d.outbox[j].serial == c.outbox[j].serial && d.outbox[j].id == c.outbox[j].id && Agrees(d.outbox[j], d.ledger[d.outbox[j].serial], d.writes)
    requires AllExact(d.writes, d.ledger)
    ensures CoreInv(d) && Serials(d.outbox) == Serials(c.outbox)
  {
    forall n | n in Serials(c.outbox)
      ensures n in Serials(d.outbox)
    {
      var j :| 0 <= j < |c.outbox| && c.outbox[j].serial == n;
      assert d.outbox[j].serial == n;
    }
    forall i, j | 0 <= i < j < |d.outbox|
      ensures d.outbox[i].serial < d.outbox[j].serial
      ensures d.outbox[i].id == d.outbox[j].id ==> d.outbox[i].id == 0
    {
      assert c.outbox[i].serial < c.outbox[j].serial;
    }
  }

  /** Changing an item in place without touching serial, id, type or QoS. */
  lemma TouchKeeps(c: Core, d: Core, i: nat)
    requires CoreInv(c) && i < |c.outbox| == |d.outbox| && d == c.(outbox := c.outbox[i := d.outbox[i]])
    requires var a, b := c.outbox[i], d.outbox[i];
      && a.serial == b.serial && a.id == b.id
      && Rank(a.pending) <= Rank(b.pending) && Agrees(b, c.ledger[a.serial], c.writes)
    ensures CoreInv(d) && Evolves(c, d)
  {
    hide Agrees, Evolves, DupExact;
    forall j | 0 <= j < |d.outbox|
      ensures d.outbox[j].serial == c.outbox[j].serial && d.outbox[j].id == c.outbox[j].id
      ensures Agrees(d.outbox[j], d.ledger[d.outbox[j].serial], d.writes)
    {
      if j != i { assert d.outbox[j] == c.outbox[j]; }
    }
    SameItems(c, d);
    TouchEvolves(c, d, i);
  }

  lemma TouchEvolves(c: Core, d: Core, i: nat)
    requires Ordered(c.outbox) && i < |c.outbox| == |d.outbox| && d == c.(outbox := c.outbox[i := d.outbox[i]])
    requires c.outbox[i].serial == d.outbox[i].serial && Rank(c.outbox[i].pending) <= Rank(d.outbox[i].pending)
    ensures Evolves(c, d)
  {
    hide Quiet, WrittenFrom;
    forall j, k | 0 <= j < |c.outbox| && 0 <= k < |d.outbox| && c.outbox[j].serial == d.outbox[k].serial
      ensures Rank(c.outbox[j].pending) <= Rank(d.outbox[k].pending)
    {
      assert d.outbox[k].serial == c.outbox[k].serial;
      assert j == k;
    }
  }

  lemma MarkKeeps(c: Core, i: nat, p: Pending)
    requires CoreInv(c) && i < |c.outbox| && Rank(c.outbox[i].pending) <= Rank(p) && p in {Transmitted, Acknowledged}
    requires p == Transmitted && c.outbox[i].mtype == PUBLISH ==> Completed(c.writes, c.outbox[i].serial)
    ensures CoreInv(Mark(c, i, p)) && Evolves(c, Mark(c, i, p))
  {
    TouchKeeps(c, Mark(c, i, p), i);
  }

  lemma RetickKeeps(c: Core, i: nat, tick: int)
    requires CoreInv(c) && i < |c.outbox|
    ensures CoreInv(Retick(c, i, tick)) && Evolves(c, Retick(c, i, tick))
  {
    TouchKeeps(c, Retick(c, i, tick), i);
  }

  /** One more write never makes an item less complete, and completes only the item written. */
  lemma CompletedMore(writes: seq<Write>, w: Write, serial: nat)
    ensures Completed(writes + [w], serial)
       <==> Completed(writes, serial) || (w.WroteItem? && w.serial == serial && w.complete)
  {
    var more := writes + [w];
    if Completed(writes, serial) {
      var k :| 0 <= k < |writes| && writes[k].WroteItem? && writes[k].serial == serial && writes[k].complete;
      assert more[k] == writes[k];
    }
    if w.WroteItem? && w.serial == serial && w.complete { assert more[|writes|] == w; }
  }

  lemma LogKeeps(c: Core, w: Write)
    requires CoreInv(c) && !w.WroteItem?
    ensures CoreInv(Log(c, w)) && Evolves(c, Log(c, w))
  {
    hide Agrees, DupExact;
    var d := Log(c, w);
    forall i | 0 <= i < |d.outbox|
      ensures Agrees(d.outbox[i], d.ledger[d.outbox[i].serial], d.writes)
    {
      AgreesMore(c.outbox[i], c.ledger[c.outbox[i].serial], c.writes, w);
    }
    forall k | 0 <= k < |d.writes|
      ensures DupExact(d.writes, d.ledger, k)
    {
      LogExact(c, w, k);
    }
  }

  lemma AgreesMore(it: Item, e: Entry, writes: seq<Write>, w: Write)
    requires Agrees(it, e, writes) && !w.WroteItem?
    ensures Agrees(it, e, writes + [w])
  {
    CompletedMore(writes, w, it.serial);
  }

  lemma LogExact(c: Core, w: Write, k: nat)
    requires AllExact(c.writes, c.ledger) && !w.WroteItem? && k < |c.writes| + 1
    ensures DupExact(c.writes + [w], c.ledger, k)
  {
    if k < |c.writes| { assert (c.writes + [w])[..k] == c.writes[..k] && DupExact(c.writes, c.ledger, k); }
  }

  /** Writing an item that is not yet acknowledged. The item itself may break its own rule for a moment: the
      caller marks a PUBLISH as transmitted once its first complete write is logged. */
  lemma SendKeeps(c: Core, i: nat, complete: bool)
    requires CoreInv(c) && i < |c.outbox| && Rank(c.outbox[i].pending) < 2
    requires !FirstOut(c.outbox[i], complete)
    ensures CoreInv(Send(c, i, complete)) && Evolves(c, Send(c, i, complete))
  {
    SendKeepsItems(c, i, complete);
    SendKeepsWrites(c, i, complete);
    SendEvolves(c, i, complete);
    SameItems(c, Send(c, i, complete));
  }

  predicate FirstOut(it: Item, complete: bool) {
    it.mtype == PUBLISH && it.pending == Queued && complete
  }

  lemma SendKeepsItems(c: Core, i: nat, complete: bool)
    requires CoreInv(c) && i < |c.outbox| && Rank(c.outbox[i].pending) < 2
    ensures var d := Send(c, i, complete);
      forall j :: 0 <= j < |d.outbox| ==>
        && d.outbox[j].serial == c.outbox[j].serial && d.outbox[j].id == c.outbox[j].id
        && ((j == i && FirstOut(c.outbox[i], complete)) || Agrees(d.outbox[j], d.ledger[d.outbox[j].serial], d.writes))
  {
    var d := Send(c, i, complete);
    var w := d.writes[|c.writes|];
    forall j | 0 <= j < |d.outbox| && !(j == i && FirstOut(c.outbox[i], complete))
      ensures Agrees(d.outbox[j], d.ledger[d.outbox[j].serial], d.writes)
    {
      var it, e := c.outbox[j], c.ledger[c.outbox[j].serial];
      assert Agrees(it, e, c.writes);
      CompletedMore(c.writes, w, it.serial);
      if j == i { DupTwice(e.packet); }
    }
  }

  lemma DupTwice(p: seq<byte>)
    requires p != []
    ensures var d := p[0 := WithDup(p[0])]; d[0 := WithDup(d[0])] == d
  {
  }

  lemma SendKeepsWrites(c: Core, i: nat, complete: bool)
    requires CoreInv(c) && i < |c.outbox| && Rank(c.outbox[i].pending) < 2
    ensures var d := Send(c, i, complete); AllExact(d.writes, d.ledger)
  {
    var d := Send(c, i, complete);
    var it := c.outbox[i];
    var e := c.ledger[it.serial];
    assert Agrees(it, e, c.writes);
    forall k | 0 <= k < |d.writes|
      ensures DupExact(d.writes, d.ledger, k)
    {
      if k < |c.writes| {
        assert d.writes[..k] == c.writes[..k] && DupExact(c.writes, c.ledger, k);
      } else {
        assert d.writes[..k] == c.writes;
        DupTwice(e.packet);
      }
    }
  }

  lemma SendEvolves(c: Core, i: nat, complete: bool)
    requires CoreInv(c) && i < |c.outbox| && Rank(c.outbox[i].pending) < 2
    ensures Evolves(c, Send(c, i, complete))
  {
    hide DupExact, Covered, WithDup, NeedsDup;
    var d := Send(c, i, complete);
    var it := c.outbox[i];
    assert Agrees(it, c.ledger[it.serial], c.writes);
    forall j, k | 0 <= j < |c.outbox| && |c.writes| <= k < |d.writes|
      ensures Quiet(c.outbox[j], d.writes[k], c.outbox[j].serial in Serials(d.outbox))
    {
    }
  }

  /** The first complete write of a PUBLISH of QoS 1 or 2 and the mark that follows it. */
  lemma SendMarkKeeps(c: Core, i: nat)
    requires CoreInv(c) && i < |c.outbox| && c.outbox[i].pending == Queued
    ensures var d := Mark(Send(c, i, true), i, Transmitted); CoreInv(d) && Evolves(c, d)
  {
    var b := Send(c, i, true);
    var d := Mark(b, i, Transmitted);
    SendKeepsItems(c, i, true);
    SendKeepsWrites(c, i, true);
    SendEvolves(c, i, true);
    forall j | 0 <= j < |d.outbox|
      ensures d.outbox[j].serial == c.outbox[j].serial && d.outbox[j].id == c.outbox[j].id
      ensures Rank(c.outbox[j].pending) <= Rank(d.outbox[j].pending)
      ensures Agrees(d.outbox[j], d.ledger[d.outbox[j].serial], d.writes)
    {
      if j == i { SendMarkAgrees(c, i); } else { assert d.outbox[j] == b.outbox[j]; }
    }
    SameItems(c, d);
    SendMarkEvolves(c, b, d);
  }

  lemma SendMarkAgrees(c: Core, i: nat)
    requires CoreInv(c) && i < |c.outbox| && c.outbox[i].pending == Queued
    ensures var d := Mark(Send(c, i, true), i, Transmitted); Agrees(d.outbox[i], d.ledger[d.outbox[i].serial], d.writes)
  {
    var it := c.outbox[i];
    assert Agrees(it, c.ledger[it.serial], c.writes);
    CompletedMore(c.writes, Send(c, i, true).writes[|c.writes|], it.serial);
  }

  lemma SendMarkEvolves(c: Core, b: Core, d: Core)
    requires Evolves(c, b) && d.ledger == b.ledger && d.writes == b.writes && Ordered(c.outbox) && |d.outbox| == |c.outbox|
    requires Serials(d.outbox) == Serials(c.outbox) == Serials(b.outbox)
    requires forall j :: 0 <= j < |d.outbox| ==>
      d.outbox[j].serial == c.outbox[j].serial && Rank(c.outbox[j].pending) <= Rank(d.outbox[j].pending)
    ensures Evolves(c, d)
  {
  }

  lemma DropMarked(c: Core, i: nat, p: Pending, fate: Fate)
    requires i < |c.outbox|
    ensures Drop(Mark(c, i, p), i, fate) == Drop(c, i, fate)
  {
    var m := Mark(c, i, p);
    assert RemoveAt(m.outbox, i) == RemoveAt(c.outbox, i);
    assert forall j :: 0 <= j < |c.outbox| ==> m.outbox[j].serial == c.outbox[j].serial;
    assert Serials(m.outbox) == Serials(c.outbox) by {
      forall n | n in Serials(c.outbox)
        ensures n in Serials(m.outbox)
      {
        var j :| 0 <= j < |c.outbox| && c.outbox[j].serial == n;
        assert m.outbox[j].serial == n;
      }
    }
  }

  /** A QoS 0 message is removed as soon as it is out. */
  lemma SendDropKeeps(c: Core, i: nat)
    requires CoreInv(c) && i < |c.outbox| && c.outbox[i].pending == Queued
    ensures var d := Drop(Send(c, i, true), i, SentQos0); CoreInv(d) && Evolves(c, d)
  {
    // An item marked before it is dropped leaves the same state as one dropped at once.
    var m := Mark(Send(c, i, true), i, Transmitted);
    SendMarkKeeps(c, i);
    DropKeeps(m, i, SentQos0);
    EvolvesTrans(c, m, Drop(m, i, SentQos0));
    DropMarked(Send(c, i, true), i, Transmitted, SentQos0);
  }
}
