/** The client task as a state machine. Every locked region of the program is one step; results of reads and
    writes, and what the application asks for, are the inputs of the step. The clock moves in steps of its own. */
module Session {
  import opened Bytes
  import opened FixedHeader
  import opened Wire
  import opened OutboxSpec
  import opened SessionCore

  datatype ClientState = Init | Disconnected | Connected | WaitReconnect

  /** Where the task is outside its locked regions. */
  datatype Place = LoopHead | Polling | Ended

  datatype Config = Config(keepaliveMs: nat, expireMs: nat, retransmitMs: nat, refreshMs: nat,
                           reconnectMs: nat, autoReconnect: bool, outboxLimit: nat)

  datatype Event =
    | BeforeConnect | NowConnected | NowDisconnected | ErrorEvent
    | MessagePublished(id: nat) | Subscribed | Unsubscribed | DataArrived

  datatype State = State(
    core: Core,
    events: seq<Event>,
    st: ClientState,
    place: Place,
    run: bool,
    clock: nat,
    lastRetransmit: nat,
    waitPing: bool,
    keepaliveTick: nat,
    refreshTick: nat,
    reconnectTick: nat,
    waitTimeout: nat,
    pendingQos: nat,
    disconnectBit: bool,
    reconnectBit: bool,
    appConnected: bool)

  const RECONNECT_DEFAULT_MS := 10000

  /** 64-bit unsigned addition and subtraction read as a signed number. */
  predicate HasTimedOut(last: nat, timeout: nat, now: nat) {
    var d := (last + timeout - now) % 0x1_0000_0000_0000_0000;
    d == 0 || d >= 0x8000_0000_0000_0000
  }

  lemma HasTimedOutExact(last: nat, timeout: nat, now: nat)
    requires last + timeout < 0x8000_0000_0000_0000 && now < 0x8000_0000_0000_0000
    ensures HasTimedOut(last, timeout, now) <==> last + timeout <= now
  {
  }

  // ---- inputs --------------------------------------------------------------------------------

  datatype WriteResult = WriteOk | WriteTimeout | WriteError

  /** What `mqtt_message_receive` and the delivery of the message amount to. */
  datatype Packet =
    | NoPacket
    | ReceiveFailed(reported: bool)
    | Suback(id: nat, readable: bool)
    | Unsuback(id: nat)
    | Publish(id: nat, qos: nat, parts: nat, delivered: bool, reported: bool)
    | Puback(id: nat)
    | Pubrec(id: nat)
    | Pubrel(id: nat)
    | Pubcomp(id: nat)
    | Pingresp
    | OtherPacket

  datatype ConnectResult = NoTransport | TransportRefused | Refused(reported: bool) | Accepted

  datatype TaskInput = TaskInput(connect: ConnectResult, packet: Packet, replyWrite: WriteResult, resendWrite: WriteResult,
                                 pubrelWrite: WriteResult, pingWrite: WriteResult, disconnectWrite: WriteResult)

  datatype Step =
    | Tick(ms: nat)
    | TaskIteration(input: TaskInput)
    | PollResult(failed: bool)
    | TaskEnd
    | ApiPublish(topic: seq<byte>, payload: seq<byte>, qos: nat, retain: nat, drawn: nat, buildable: bool, write: WriteResult)
    | ApiEnqueue(topic: seq<byte>, payload: seq<byte>, qos: nat, retain: nat, drawn: nat, buildable: bool, store: bool)
    | ApiSubscribe(packet: seq<byte>, drawn: nat, write: WriteResult)
    | ApiUnsubscribe(packet: seq<byte>, drawn: nat, write: WriteResult)
    | ApiDisconnect
    | ApiReconnect
    | ApiStop(write: WriteResult)

  // ---- events and writes -----------------------------------------------------------------------

  /** Dispatching runs the application's handler, which keeps a flag. */
  function Dispatch(s: State, e: Event): (r: State)
    ensures r == s.(events := r.events, appConnected := r.appConnected)
  {
    s.(events := s.events + [e],
       appConnected := if e == NowConnected then true else if e == NowDisconnected || e == ErrorEvent then false else s.appConnected)
  }

  function Report(s: State, w: WriteResult): State {
    if w == WriteError then Dispatch(s, ErrorEvent) else s
  }

  function WriteOther(s: State, mtype: nat, id: nat, w: WriteResult): State {
    Report(s.(core := Log(s.core, WroteOther(mtype, id))), w)
  }

  function Abort(cfg: Config, s: State): State {
    Dispatch(s.(st := WaitReconnect, waitTimeout := cfg.reconnectMs, reconnectTick := s.clock, waitPing := false), NowDisconnected)
  }

  /** A write that failed where the program gives the connection up. */
  function GiveUp(cfg: Config, s: State, w: WriteResult): State {
    Abort(cfg, Report(s, w))
  }

  // ---- one received packet ---------------------------------------------------------------------

  /** Removes the message a reply belongs to; without one the reply is ignored. */
  function Settle(s: State, id: nat, mtype: nat, fate: Fate, e: Event): State {
    var i := IndexOfMatch(s.core.outbox, id, mtype);
    if i < |s.core.outbox| then Dispatch(s.(core := Drop(s.core, i, fate)), e) else s
  }

  /** The data events of one message, also those before a delivery that fails. */
  function Parts(s: State, n: nat): (r: State)
    ensures r == s.(events := r.events)
  {
    if n == 0 then s else Dispatch(Parts(s, n - 1), DataArrived)
  }

  function SetPending(c: Core, id: nat, p: Pending): (d: Core)
    ensures |d.outbox| == |c.outbox|
  {
    var i := IndexOfId(c.outbox, id);
    if i < |c.outbox| then Mark(c, i, p) else c
  }

  function SetTick(c: Core, id: nat, tick: int): (d: Core)
    ensures |d.outbox| == |c.outbox|
  {
    var i := IndexOfId(c.outbox, id);
    if i < |c.outbox| then Retick(c, i, tick) else c
  }

  function ProcessReceive(s: State, p: Packet, w: WriteResult): (State, bool) {
    match p
    case NoPacket => (s, true)
    case ReceiveFailed(reported) => (if reported then Dispatch(s, ErrorEvent) else s, false)
    case Suback(id, readable) =>
      if IndexOfMatch(s.core.outbox, id, SUBSCRIBE) == |s.core.outbox| then (s, true)
      else if readable then (Settle(s, id, SUBSCRIBE, Granted, Subscribed), true)
      else (s.(core := Drop(s.core, IndexOfMatch(s.core.outbox, id, SUBSCRIBE), Granted)), false)
    case Unsuback(id) => (Settle(s, id, UNSUBSCRIBE, Granted, Unsubscribed), true)
    case Publish(id, qos, parts, delivered, reported) =>
      var s1 := Parts(s, parts);
      if !delivered then (if reported then Dispatch(s1, ErrorEvent) else s1, false)
      else if qos == 1 then (WriteOther(s1, PUBACK, id, w), w == WriteOk)
      else if qos == 2 then (WriteOther(s1, PUBREC, id, w), w == WriteOk)
      else (s1, true)
    case Puback(id) => (Settle(s, id, PUBLISH, Fate.Published, MessagePublished(id)), true)
    case Pubrec(id) => (Report(s.(core := Log(SetPending(s.core, id, Acknowledged), WrotePubrel(id))), w), true)
    case Pubrel(id) => (WriteOther(s, PUBCOMP, id, w), true)
    case Pubcomp(id) => (Settle(s, id, PUBLISH, Fate.Published, MessagePublished(id)), true)
    case Pingresp => (s.(waitPing := false, keepaliveTick := s.clock), true)
    case OtherPacket => (s, true)
  }

  // ---- resending -------------------------------------------------------------------------------

  /** `mqtt_resend_queued`; a failed write ends the connection. */
  function ResendItem(cfg: Config, s: State, i: nat, w: WriteResult): (State, bool)
    requires i < |s.core.outbox|
  {
    var s1 := s.(core := Send(s.core, i, w == WriteOk), pendingQos := s.core.outbox[i].qos);
    if w == WriteOk then (s1, true) else (GiveUp(cfg, s1, w), false)
  }

  function ResendPubrel(cfg: Config, s: State, i: nat, w: WriteResult): State
    requires i < |s.core.outbox|
  {
    var s1 := s.(core := Log(s.core, WrotePubrel(s.core.outbox[i].id)), pendingQos := s.core.outbox[i].qos);
    if w == WriteOk then s1 else GiveUp(cfg, s1, w)
  }

  function ResendQueued(cfg: Config, s: State, i: nat, w: WriteResult): State
    requires i < |s.core.outbox|
  {
    var it := s.core.outbox[i];
    var (s1, ok) := ResendItem(cfg, s, i, w);
    if !ok then s1
    else if it.mtype == PUBLISH && it.qos == 0 then s1.(core := Drop(s1.core, i, SentQos0))
    else if it.qos > 0 then s1.(core := SetPending(s1.core, it.id, Transmitted))
    else s1
  }

  predicate Due(cfg: Config, s: State, i: nat) {
    i < |s.core.outbox| && s.clock - s.core.outbox[i].tick > cfg.retransmitMs
  }

  function Retransmit(cfg: Config, s: State, input: TaskInput): State {
    var s1 := s.(lastRetransmit := s.clock);
    var i := IndexOfPending(s1.core.outbox, Transmitted);
    var s2 := if Due(cfg, s1, i) then ResendItem(cfg, s1, i, input.resendWrite).0 else s1;
    var j := IndexOfPending(s2.core.outbox, Acknowledged);
    if Due(cfg, s2, j) then ResendPubrel(cfg, s2, j, input.pubrelWrite) else s2
  }

  function Resend(cfg: Config, s: State, input: TaskInput): State {
    var s1 := if s.lastRetransmit == 0 then s.(lastRetransmit := s.clock) else s;
    var i := IndexOfPending(s1.core.outbox, Queued);
    if i < |s1.core.outbox| then ResendQueued(cfg, s1, i, input.resendWrite)
    else if HasTimedOut(s1.lastRetransmit, cfg.retransmitMs, s1.clock) then Retransmit(cfg, s1, input)
    else s1
  }

  // ---- keepalive -------------------------------------------------------------------------------

  function ProcessKeepalive(cfg: Config, s: State, w: WriteResult): (State, bool) {
    if cfg.keepaliveMs == 0 then (s, true)
    else if s.waitPing then
      if HasTimedOut(s.keepaliveTick, cfg.keepaliveMs, s.clock) then (Abort(cfg, s), false) else (s, true)
    else if HasTimedOut(s.keepaliveTick, cfg.keepaliveMs / 2, s.clock) then
      var s1 := WriteOther(s, PINGREQ, 0, w);
      if w == WriteOk then (s1.(waitPing := true), true) else (Abort(cfg, s1), false)
    else (s, true)
  }

  function Refresh(cfg: Config, s: State): State {
    if cfg.refreshMs > 0 && HasTimedOut(s.refreshTick, cfg.refreshMs, s.clock) then Abort(cfg, s).(st := Init) else s
  }

  // ---- one iteration of the task ----------------------------------------------------------------

  function IterateInit(cfg: Config, s: State, c: ConnectResult): State {
    var s1 := s.(disconnectBit := false, reconnectBit := false);
    if c == NoTransport then s1.(run := false)
    else
      var s2 := Dispatch(s1, BeforeConnect);
      var asked := Log(s2.core, WroteOther(CONNECT, 0));
      match c
      case TransportRefused => Abort(cfg, Dispatch(s2, ErrorEvent))
      case Refused(reported) =>
        var s3 := s2.(waitPing := false, core := asked);
        Abort(cfg, if reported then Dispatch(s3, ErrorEvent) else s3)
      case _ =>
        var s3 := s2.(waitPing := false, core := asked, st := Connected);
        Dispatch(s3, NowConnected).(refreshTick := s.clock, keepaliveTick := s.clock)
  }

  function IterateConnected(cfg: Config, s: State, input: TaskInput): State {
    if s.disconnectBit then Abort(cfg, WriteOther(s.(disconnectBit := false), DISCONNECT, 0, input.disconnectWrite))
    else
      var (s1, received) := ProcessReceive(s, input.packet, input.replyWrite);
      if !received then Abort(cfg, s1)
      else
        var (s2, alive) := ProcessKeepalive(cfg, Resend(cfg, s1, input), input.pingWrite);
        if alive then Refresh(cfg, s2) else s2
  }

  function IterateWait(cfg: Config, s: State): State {
    if !cfg.autoReconnect && s.reconnectBit then
      s.(reconnectBit := false, st := Init, waitTimeout := RECONNECT_DEFAULT_MS)
    else if cfg.autoReconnect && s.clock - s.reconnectTick > s.waitTimeout then
      s.(st := Init, reconnectTick := s.clock)
    else s
  }

  function Iterate(cfg: Config, s: State, input: TaskInput): State {
    var s1 := s.(core := Sweep(s.core, s.clock, cfg.expireMs));
    var s2 := match s1.st
      case Disconnected => s1
      case Init => IterateInit(cfg, s1, input.connect)
      case Connected => IterateConnected(cfg, s1, input)
      case WaitReconnect => IterateWait(cfg, s1);
    s2.(place := if s2.st == Connected then Polling else LoopHead)
  }

  // ---- the API -----------------------------------------------------------------------------------

  function Stored(s: State, mtype: nat, id: nat, qos: nat, packet: seq<byte>): State {
    s.(core := Add(s.core, id, mtype, qos, s.clock, packet))
  }

  predicate Full(cfg: Config, s: State, len: nat) {
    cfg.outboxLimit > 0 && len + SizeOf(s.core.outbox) > cfg.outboxLimit
  }

  function IdFor(qos: nat, drawn: nat): nat {
    if qos > 0 then drawn else 0
  }

  /** Between storing and transmitting, a message of QoS 1 or 2 is the last in the outbox. */
  function PublishNow(cfg: Config, s: State, id: nat, qos: nat, w: WriteResult): State
    requires qos > 0 ==> s.core.outbox != []
  {
    if qos == 0 then
      var s1 := WriteOther(s, PUBLISH, 0, w);
      if w == WriteOk then s1 else Abort(cfg, s1)
    else
      var s1 := s.(core := Send(s.core, |s.core.outbox| - 1, w == WriteOk));
      if w == WriteOk then s1.(core := SetPending(SetTick(s1.core, id, s1.clock), id, Transmitted))
      else GiveUp(cfg, s1, w)
  }

  function Publishing(cfg: Config, s: State, topic: seq<byte>, payload: seq<byte>, qos: nat, retain: nat, drawn: nat, w: WriteResult): State
    requires qos < 3 && retain < 2
  {
    if qos > 0 && Full(cfg, s, |payload|) then s
    else
      var id := IdFor(qos, drawn);
      var packet := PublishPacket(0, qos, retain, topic, id, payload);
      var s1 := if qos > 0 then Stored(s, PUBLISH, id, qos, packet).(pendingQos := qos) else s;
      if s1.st != Connected then s1 else PublishNow(cfg, s1, id, qos, w)
  }

  function Enqueuing(cfg: Config, s: State, topic: seq<byte>, payload: seq<byte>, qos: nat, retain: nat, drawn: nat, store: bool): State
    requires qos < 3 && retain < 2
  {
    if Full(cfg, s, |payload|) || !(qos > 0 || store) then s
    else
      var id := IdFor(qos, drawn);
      Stored(s, PUBLISH, id, qos, PublishPacket(0, qos, retain, topic, id, payload)).(pendingQos := qos)
  }

  /** Subscribing and unsubscribing: stored with whatever QoS the last publish left behind, marked as
      transmitted at once, written once; a failed write does not end the connection. */
  function Asking(s: State, mtype: nat, packet: seq<byte>, drawn: nat, w: WriteResult): State {
    if s.st != Connected then s
    else
      var s1 := Stored(s, mtype, drawn, s.pendingQos, packet);
      var c := SetPending(s1.core, drawn, Transmitted);
      Report(s1.(core := Send(c, |s.core.outbox|, w == WriteOk)), w)
  }

  /** What a caller of the API and the peer have to observe for a step to make sense. */
  predicate Allowed(s: State, step: Step) {
    match step
    case TaskIteration(input) => s.place == LoopHead && s.run && PacketIdOk(input.packet)
    case PollResult(_) => s.place == Polling
    case TaskEnd => s.place == LoopHead && !s.run
    case ApiPublish(_, _, qos, retain, drawn, _, _) => qos < 3 && retain < 2 && 0 < drawn < 65536 && Fresh(s.core, drawn)
    case ApiEnqueue(_, _, qos, retain, drawn, _, _) => qos < 3 && retain < 2 && 0 < drawn < 65536 && Fresh(s.core, drawn)
    case ApiSubscribe(packet, drawn, _) => packet != [] && DupOf(packet[0]) == 0 && 0 < drawn < 65536 && Fresh(s.core, drawn)
    case ApiUnsubscribe(packet, drawn, _) => packet != [] && DupOf(packet[0]) == 0 && 0 < drawn < 65536 && Fresh(s.core, drawn)
    case _ => true
  }

  /** Packets that need an identifier carry a nonzero one. */
  predicate PacketIdOk(p: Packet) {
    match p
    case Suback(id, _) => id != 0
    case Unsuback(id) => id != 0
    case Puback(id) => id != 0
    case Pubrec(id) => id != 0
    case Pubcomp(id) => id != 0
    case _ => true
  }

  function Next(cfg: Config, s: State, step: Step): State
    requires Allowed(s, step)
  {
    match step
    case Tick(ms) => s.(clock := s.clock + ms)
    case TaskIteration(input) => Iterate(cfg, s, input)
    case PollResult(failed) => (if failed then Abort(cfg, s) else s).(place := LoopHead)
    case TaskEnd => s.(core := Clear(s.core), st := Disconnected, place := Ended)
    case ApiPublish(topic, payload, qos, retain, drawn, buildable, w) =>
      if buildable then Publishing(cfg, s, topic, payload, qos, retain, drawn, w) else s
    case ApiEnqueue(topic, payload, qos, retain, drawn, buildable, store) =>
      if buildable then Enqueuing(cfg, s, topic, payload, qos, retain, drawn, store) else s
    case ApiSubscribe(packet, drawn, w) =>
      if Full(cfg, s, 0) then s else Asking(s, SUBSCRIBE, packet, drawn, w)
    case ApiUnsubscribe(packet, drawn, w) => Asking(s, UNSUBSCRIBE, packet, drawn, w)
    case ApiDisconnect => s.(disconnectBit := true)
    case ApiReconnect => if s.st == WaitReconnect then s.(waitTimeout := 0, reconnectBit := true) else s
    case ApiStop(w) =>
      if !s.run then s
      else (if s.st == Connected then WriteOther(s, DISCONNECT, 0, w) else s).(run := false, st := Disconnected)
  }

  /** The task has just started. */
  const Start := State(Core([], [], []), [], Init, LoopHead, true, 0, 0, false, 0, 0, 0, 0, 0, false, false, false)

  predicate Runs(cfg: Config, s: State, steps: seq<Step>)
    decreases |steps|
  {
    steps == [] || (Allowed(s, steps[0]) && Runs(cfg, Next(cfg, s, steps[0]), steps[1..]))
  }

  function Exec(cfg: Config, s: State, steps: seq<Step>): State
    requires Runs(cfg, s, steps)
    decreases |steps|
  {
    if steps == [] then s else Exec(cfg, Next(cfg, s, steps[0]), steps[1..])
  }
}
