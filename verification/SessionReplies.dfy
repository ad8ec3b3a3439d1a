/** What each packet from the peer does to a reachable session: which message it settles, what becomes of it, what the
    application hears and what is written in answer. */
module SessionReplies {
  import opened Bytes
  import opened FixedHeader
  import opened OutboxSpec
  import opened SessionCore
  import opened Session
  import opened SessionProofs

  /** Message `i` has left the outbox, the others are as they were, and the ledger says what became of it. */
  ghost predicate Gone(c: Core, d: Core, i: nat, fate: Fate)
    requires i < |c.outbox|
  {
    var serial := c.outbox[i].serial;
    && d.outbox == c.outbox[..i] + c.outbox[i + 1..]
    && serial !in Serials(d.outbox)
    && |d.ledger| == |c.ledger| && serial < |c.ledger|
    && (forall n :: 0 <= n < |c.ledger| ==>
         d.ledger[n] == if n == serial then c.ledger[n].(fate := fate) else c.ledger[n])
    && d.writes == c.writes
  }

  /** No stored message of this type has this id. */
  predicate NoneStored(items: seq<Item>, id: nat, mtype: nat) {
    forall i :: 0 <= i < |items| ==> items[i].id != id || items[i].mtype != mtype
  }

  /** With distinct ids a nonzero one finds the message it belongs to. */
  lemma MatchFound(c: Core, i: nat)
    requires CoreInv(c) && i < |c.outbox| && c.outbox[i].id != 0
    ensures IndexOfMatch(c.outbox, c.outbox[i].id, c.outbox[i].mtype) == i
  {
    StoredAgrees(c, i);
    StoredDistinct(c);
    assert Matches(c.outbox[i], c.outbox[i].id, c.outbox[i].mtype);
  }

  lemma StoredDistinct(c: Core)
    requires CoreInv(c)
    ensures DistinctIds(c.outbox)
  {
  }

  lemma MatchMissing(c: Core, id: nat, mtype: nat)
    requires CoreInv(c) && NoneStored(c.outbox, id, mtype)
    ensures IndexOfMatch(c.outbox, id, mtype) == |c.outbox|
  {
    hide CoreInv, IndexOfMatch;
    var i := IndexOfMatch(c.outbox, id, mtype);
    if i < |c.outbox| { StoredAgrees(c, i); }
  }

  lemma Removed(c: Core, i: nat, fate: Fate)
    requires CoreInv(c) && i < |c.outbox|
    ensures Gone(c, Drop(c, i, fate), i, fate)
  {
    StoredAgrees(c, i);
    StoredOrder(c);
    hide CoreInv;
    RemoveAtPart(c.outbox, i);
    assert c.outbox[i].serial in Serials(c.outbox) - Serials(RemoveAt(c.outbox, i));
  }

  lemma Settled(s: State, i: nat, fate: Fate, e: Event)
    requires Good(s) && i < |s.core.outbox| && s.core.outbox[i].id != 0 && !e.NowConnected?
    ensures var t := Settle(s, s.core.outbox[i].id, s.core.outbox[i].mtype, fate, e);
      Gone(s.core, t.core, i, fate) && t.events == s.events + [e]
  {
    hide CoreInv, Drop, Gone;
    MatchFound(s.core, i);
    Removed(s.core, i, fate);
  }

  /** PUBACK, and for QoS 2 PUBCOMP, ends the message with its id: it leaves the outbox as published, and the application hears of it. */
  lemma PubackSettles(s: State, i: nat, w: WriteResult)
    requires Good(s) && i < |s.core.outbox| && s.core.outbox[i].mtype == PUBLISH && s.core.outbox[i].id != 0
    ensures var id := s.core.outbox[i].id; var (t, ok) := ProcessReceive(s, Puback(id), w);
      ok && Gone(s.core, t.core, i, Fate.Published) && t.events == s.events + [MessagePublished(id)]
    ensures var id := s.core.outbox[i].id; var (t, ok) := ProcessReceive(s, Pubcomp(id), w);
      ok && Gone(s.core, t.core, i, Fate.Published) && t.events == s.events + [MessagePublished(id)]
  {
    hide Gone, Settle;
    Settled(s, i, Fate.Published, MessagePublished(s.core.outbox[i].id));
  }

  lemma UnsubackSettles(s: State, i: nat, w: WriteResult)
    requires Good(s) && i < |s.core.outbox| && s.core.outbox[i].mtype == UNSUBSCRIBE
    ensures var (t, ok) := ProcessReceive(s, Unsuback(s.core.outbox[i].id), w);
      ok && Gone(s.core, t.core, i, Granted) && t.events == s.events + [Unsubscribed]
  {
    hide Gone, Settle;
    StoredAgrees(s.core, i);
    Settled(s, i, Granted, Unsubscribed);
  }

  /** A SUBACK ends its SUBSCRIBE; one without return codes does so too, but ends the connection instead of telling the application. */
  lemma SubackSettles(s: State, i: nat, w: WriteResult)
    requires Good(s) && i < |s.core.outbox| && s.core.outbox[i].mtype == SUBSCRIBE
    ensures var (t, ok) := ProcessReceive(s, Suback(s.core.outbox[i].id, true), w);
      ok && Gone(s.core, t.core, i, Granted) && t.events == s.events + [Subscribed]
    ensures var (t, ok) := ProcessReceive(s, Suback(s.core.outbox[i].id, false), w);
      !ok && Gone(s.core, t.core, i, Granted) && t.events == s.events
  {
    hide CoreInv, Settle, Drop, Gone;
    StoredAgrees(s.core, i);
    Settled(s, i, Granted, Subscribed);
    MatchFound(s.core, i);
    Removed(s.core, i, Granted);
  }

  /** A reply to nothing that is stored changes nothing. */
  lemma StrayReplies(s: State, id: nat, readable: bool, w: WriteResult)
    requires Good(s)
    ensures NoneStored(s.core.outbox, id, PUBLISH) ==>
      ProcessReceive(s, Puback(id), w) == (s, true) && ProcessReceive(s, Pubcomp(id), w) == (s, true)
    ensures NoneStored(s.core.outbox, id, SUBSCRIBE) ==> ProcessReceive(s, Suback(id, readable), w) == (s, true)
    ensures NoneStored(s.core.outbox, id, UNSUBSCRIBE) ==> ProcessReceive(s, Unsuback(id), w) == (s, true)
  {
    hide CoreInv, NoneStored;
    if NoneStored(s.core.outbox, id, PUBLISH) { MatchMissing(s.core, id, PUBLISH); }
    if NoneStored(s.core.outbox, id, SUBSCRIBE) { MatchMissing(s.core, id, SUBSCRIBE); }
    if NoneStored(s.core.outbox, id, UNSUBSCRIBE) { MatchMissing(s.core, id, UNSUBSCRIBE); }
  }

  lemma {:induction false} PartsHeard(s: State, n: nat)
    ensures Parts(s, n).events == s.events + seq(n, _ => DataArrived)
    ensures Parts(s, n) == s.(events := s.events + seq(n, _ => DataArrived))
  {
    if n > 0 {
      PartsHeard(s, n - 1);
      assert seq(n, _ => DataArrived) == seq(n - 1, _ => DataArrived) + [DataArrived];
    } else {
      assert s.events + seq(0, _ => DataArrived) == s.events;
    }
  }

  /** The answer to a PUBLISH, on what is known once its data have been handed on. */
  lemma Answered(s: State, mtype: nat, id: nat, w: WriteResult)
    ensures var t := WriteOther(s, mtype, id, w);
      && t.core == s.core.(writes := s.core.writes + [WroteOther(mtype, id)])
      && t.events == s.events + (if w == WriteError then [ErrorEvent] else [])
  {
    assert s.events + [] == s.events;
  }

  /** A PUBLISH that reaches the application is answered once: PUBACK for QoS 1, PUBREC for QoS 2, with its id, and
      nothing for QoS 0; one that does not is not answered at all. The outbox is left alone. */
  lemma PublishAnswered(s: State, id: nat, qos: nat, parts: nat, delivered: bool, reported: bool, w: WriteResult)
    ensures var (t, ok) := ProcessReceive(s, Packet.Publish(id, qos, parts, delivered, reported), w);
      && t.core.outbox == s.core.outbox && t.core.ledger == s.core.ledger
      && t.core.writes == s.core.writes
         + (if !delivered then [] else if qos == 1 then [WroteOther(4, id)] else if qos == 2 then [WroteOther(5, id)] else [])
      && t.events == s.events + seq(parts, _ => DataArrived)
         + (if (if delivered then 1 <= qos <= 2 && w == WriteError else reported) then [ErrorEvent] else [])
      && (ok <==> delivered && (1 <= qos <= 2 ==> w == WriteOk))
  {
    hide Parts, WriteOther;
    PartsHeard(s, parts);
    Answered(Parts(s, parts), 4, id, w);
    Answered(Parts(s, parts), 5, id, w);
  }

  /** A PUBREC marks the message with its id and is answered by PUBREL, whether or not anything is stored. */
  lemma PubrecAnswered(s: State, id: nat, w: WriteResult)
    requires Good(s) && id != 0
    ensures var (t, ok) := ProcessReceive(s, Pubrec(id), w);
      && ok && t.core.writes == s.core.writes + [WrotePubrel(id)]
      && t.core.ledger == s.core.ledger && |t.core.outbox| == |s.core.outbox|
      && forall i :: 0 <= i < |s.core.outbox| ==>
           t.core.outbox[i] == if s.core.outbox[i].id == id then s.core.outbox[i].(pending := Acknowledged) else s.core.outbox[i]
  {
    hide Good, IndexOfId;
    PubrecMarks(s, id);
  }

  lemma PubrecMarks(s: State, id: nat)
    requires Good(s) && id != 0
    ensures var d := SetPending(s.core, id, Acknowledged);
      && d == s.core.(outbox := d.outbox) && |d.outbox| == |s.core.outbox|
      && forall i :: 0 <= i < |s.core.outbox| ==>
           d.outbox[i] == if s.core.outbox[i].id == id then s.core.outbox[i].(pending := Acknowledged) else s.core.outbox[i]
  {
    StoredDistinct(s.core);
    hide CoreInv;
  }

  /** PUBREL is answered by PUBCOMP; a PINGRESP ends the wait for it. Either leaves outbox and ledger alone. */
  lemma PubrelAnswered(s: State, id: nat, w: WriteResult)
    ensures var (t, ok) := ProcessReceive(s, Packet.Pubrel(id), w);
      ok && t.core == s.core.(writes := s.core.writes + [WroteOther(7, id)])
    ensures var (t, ok) := ProcessReceive(s, Pingresp, w);
      ok && t.core == s.core && t.events == s.events && !t.waitPing && t.keepaliveTick == s.clock
  {
    hide WriteOther;
    Answered(s, 7, id, w);
  }
}
