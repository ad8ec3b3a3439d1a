/** The pump control loop: two flow sensors sampled about once a second, a hold-off after flow ends, and the
    relays, on clocks and pulse counters of 32 bits. */
module Pump {
  import opened Bytes
  import opened Clock
  import opened Modos

  datatype Side = Cold | Hot

  /** One turn of the loop as seen from outside: the three moments at which it reads the clock, in microseconds,
      the pulses either sensor has given since power-up, and the mode. */
  datatype Turn = Turn(nowUs: nat, updateUs: nat, stopUs: nat, cold: nat, hot: nat, mode: Mode)

  datatype Relays = Relays(cold: bool, hot: bool)

  const UPDATE_US := 1_000_000
  const DELAY_OFF_MS := 5000
  const STARTUP_INHIBIT_MS := 3000

  function Ms(us: nat): nat {
    us / 1000
  }

  function Pulses(t: Turn, side: Side): nat {
    if side == Cold then t.cold else t.hot
  }

  /** The program's arithmetic on exact numbers: litres a minute above 0.10 with 6.6 pulses a second to the litre. */
  predicate Flows(pulses: nat, us: nat)
    requires us > 0
  {
    pulses as real / (us as real / 1000000.0) / 6.6 > 0.10
  }

  lemma FlowsIff(pulses: nat, us: nat)
    requires us > 0
    ensures Flows(pulses, us) <==> 100_000_000 * pulses > 66 * us
  {
    var s := us as real / 1000000.0;
    Quotient(pulses as real, s, 0.66);
    assert (100_000_000 * pulses) as real == 100000000.0 * (pulses as real) && (66 * us) as real == 66.0 * (us as real);
  }

  lemma Quotient(p: real, s: real, c: real)
    requires s > 0.0
    ensures p / s > c <==> p > c * s
  {
    var q := p / s;
    assert q * s == p;
    if q > c {
      assert (q - c) * s > 0.0;
    } else {
      assert (c - q) * s >= 0.0;
    }
  }

  /** The relays each mode asks for. */
  function Table(mode: Mode, cold: bool, hot: bool): Relays {
    match mode
    case Normal => Relays(cold, hot)
    case Duo => Relays(cold || hot, cold || hot)
    case Mix => Relays(cold || hot, hot)
  }

  // ---- the state as a function of the turns so far ----------------------------------------------

  function LastUpdate(boot: nat, h: seq<Turn>): nat {
    if h == [] then boot
    else if h[|h| - 1].updateUs - LastUpdate(boot, h[..|h| - 1]) >= UPDATE_US then h[|h| - 1].updateUs
    else LastUpdate(boot, h[..|h| - 1])
  }

  predicate Updates(boot: nat, h: seq<Turn>)
    requires h != []
  {
    h[|h| - 1].updateUs - LastUpdate(boot, h[..|h| - 1]) >= UPDATE_US
  }

  /** The pulses up to the last update. */
  function Counted(boot: nat, h: seq<Turn>, side: Side): nat {
    if h == [] then 0
    else if Updates(boot, h) then Pulses(h[|h| - 1], side)
    else Counted(boot, h[..|h| - 1], side)
  }

  /** Whether the last update saw flow. */
  function Active(boot: nat, h: seq<Turn>, side: Side): bool {
    if h == [] then false
    else
      var front, t := h[..|h| - 1], h[|h| - 1];
      if Updates(boot, h) then
        Flows((Pulses(t, side) - Counted(boot, front, side)) % WRAP, t.updateUs - LastUpdate(boot, front))
      else Active(boot, front, side)
  }

  predicate Stops(boot: nat, h: seq<Turn>, n: nat, side: Side)
    requires n < |h|
  {
    Active(boot, h[..n], side) && !Active(boot, h[..n + 1], side)
  }

  function LastStop(boot: nat, h: seq<Turn>, side: Side): nat {
    if h == [] then 0
    else if Active(boot, h[..|h| - 1], side) && !Active(boot, h, side) then Millis32(Ms(h[|h| - 1].stopUs))
    else LastStop(boot, h[..|h| - 1], side)
  }

  predicate Timely(boot: nat, h: seq<Turn>) {
    && (forall i :: 0 <= i < |h| ==> boot <= h[i].nowUs <= h[i].updateUs <= h[i].stopUs)
    && (forall i, j :: 0 <= i < j < |h| ==> h[i].stopUs <= h[j].nowUs && h[i].cold <= h[j].cold && h[i].hot <= h[j].hot)
  }

  // ---- what the program decides ------------------------------------------------------------------

  predicate HoldOffActive(lastStop: nat, now: nat) {
    lastStop != 0 && Minus32(now, lastStop) < DELAY_OFF_MS
  }

  predicate Demand32(boot: nat, h: seq<Turn>, side: Side)
    requires h != []
  {
    Active(boot, h, side) || HoldOffActive(LastStop(boot, h, side), Millis32(Ms(h[|h| - 1].nowUs)))
  }

  function Decided(boot: nat, h: seq<Turn>): Relays
    requires h != []
  {
    if Millis32(Ms(h[|h| - 1].nowUs)) > STARTUP_INHIBIT_MS
    then Table(h[|h| - 1].mode, Demand32(boot, h, Cold), Demand32(boot, h, Hot))
    else Relays(false, false)
  }

  // ---- the program -------------------------------------------------------------------------------

  /** What the program keeps for one sensor. */
  class Sensor {
    /** Counted by the interrupt routine. */
    var pulses: nat
    var lastPulses: nat
    var active: bool
    var lastStopMs: nat
    ghost var total: nat

    constructor ()
      ensures Holds(Off) && pulses == total == 0
    {
      pulses, lastPulses, active, lastStopMs, total := 0, 0, false, 0, 0;
    }

    ghost predicate Holds(s: Reading)
      reads this
    {
      && pulses == total % WRAP && s.counted <= total
      && lastPulses == s.counted % WRAP && active == s.active && lastStopMs == s.lastStop
    }

    method Pulse(ghost s: Reading)
      requires Holds(s)
      modifies this
      ensures Holds(s) && total == old(total) + 1
    {
      pulses := (pulses + 1) % WRAP;
      total := total + 1;
    }

    /** One sensor's share of `fluxo_update`. */
    method Update(ghost s: Reading, dtUs: nat, nowMs: nat)
      requires Holds(s) && dtUs > 0
      modifies this
      ensures total == old(total)
      ensures var flow := Flows((total - s.counted) % WRAP, dtUs);
        Holds(Reading(total, flow, if s.active && !flow then nowMs else s.lastStop))
    {
      var d := Minus32(pulses, lastPulses);
      Minus32Exact(total, s.counted);
      lastPulses := pulses;
      var flow := Flows(d, dtUs);
      if active && !flow {
        lastStopMs := nowMs;
      }
      active := flow;
    }
  }

  datatype Reading = Reading(counted: nat, active: bool, lastStop: nat)

  const Off := Reading(0, false, 0)

  function ReadingOf(boot: nat, h: seq<Turn>, side: Side): Reading {
    Reading(Counted(boot, h, side), Active(boot, h, side), LastStop(boot, h, side))
  }

  class Control {
    const cold: Sensor
    const hot: Sensor
    var lastUpdateUs: nat
    var relays: Relays
    ghost const boot: nat
    ghost var history: seq<Turn>

    ghost predicate Valid()
      reads this, cold, hot
    {
      && cold != hot && Timely(boot, history)
      && lastUpdateUs == LastUpdate(boot, history)
      && cold.Holds(ReadingOf(boot, history, Cold)) && hot.Holds(ReadingOf(boot, history, Hot))
      && (history != [] ==> relays == Decided(boot, history))
    }

    constructor (nowUs: nat)
      ensures Valid() && boot == nowUs && history == [] && relays == Relays(false, false)
      ensures fresh(cold) && fresh(hot) && cold.total == hot.total == 0
    {
      cold := new Sensor();
      hot := new Sensor();
      lastUpdateUs, relays := nowUs, Relays(false, false);
      boot, history := nowUs, [];
    }

    method Pulse(side: Side)
      requires Valid()
      modifies cold, hot
      ensures Valid()
      ensures cold.total == old(cold.total) + (if side == Cold then 1 else 0)
      ensures hot.total == old(hot.total) + (if side == Hot then 1 else 0)
    {
      if side == Cold {
        cold.Pulse(ReadingOf(boot, history, Cold));
      } else {
        hot.Pulse(ReadingOf(boot, history, Hot));
      }
    }

    /** One turn of `task_hidrocontrol`. */
    method Iterate(nowUs: nat, updateUs: nat, stopUs: nat, mode: Mode)
      requires Valid() && Timely(boot, history + [Turn(nowUs, updateUs, stopUs, cold.total, hot.total, mode)])
      modifies this, cold, hot
      ensures Valid()
      ensures history == old(history) + [Turn(nowUs, updateUs, stopUs, cold.total, hot.total, mode)]
      ensures cold.total == old(cold.total) && hot.total == old(hot.total)
    {
      hide LastUpdate, Counted, Active, LastStop, Flows, Minus32, Millis32, Ms;
      ghost var was := history;
      ghost var t := Turn(nowUs, updateUs, stopUs, cold.total, hot.total, mode);
      var now := Millis32(Ms(nowUs));
      FluxoUpdate(updateUs, stopUs, t);
      var rFrio, rQuente := false, false;
      if now > STARTUP_INHIBIT_MS {
        var dFrio := cold.active || HoldOffActive(cold.lastStopMs, now);
        var dQuente := hot.active || HoldOffActive(hot.lastStopMs, now);
        match mode {
          case Normal => rFrio, rQuente := dFrio, dQuente;
          case Duo => rFrio, rQuente := dFrio || dQuente, dFrio || dQuente;
          case Mix => rFrio, rQuente := dFrio || dQuente, dQuente;
        }
      }
      relays := Relays(rFrio, rQuente);
      history := was + [t];
    }

    method FluxoUpdate(nowUs: nat, stopUs: nat, ghost t: Turn)
      requires cold != hot && lastUpdateUs == LastUpdate(boot, history)
      requires cold.Holds(ReadingOf(boot, history, Cold)) && hot.Holds(ReadingOf(boot, history, Hot))
      requires t.updateUs == nowUs && t.stopUs == stopUs && t.cold == cold.total && t.hot == hot.total
      modifies this`lastUpdateUs, cold, hot
      ensures lastUpdateUs == LastUpdate(boot, history + [t])
      ensures cold.Holds(ReadingOf(boot, history + [t], Cold)) && hot.Holds(ReadingOf(boot, history + [t], Hot))
      ensures cold.total == old(cold.total) && hot.total == old(hot.total)
    {
      hide Flows, Minus32, Millis32, Ms, Timely;
      ghost var h := history + [t];
      assert h[..|h| - 1] == history;
      var dtUs := nowUs - lastUpdateUs;
      if dtUs < UPDATE_US { return; }
      lastUpdateUs := nowUs;
      cold.Update(ReadingOf(boot, history, Cold), dtUs, Millis32(Ms(stopUs)));
      hot.Update(ReadingOf(boot, history, Hot), dtUs, Millis32(Ms(stopUs)));
    }
  }

  // ---- what it means -------------------------------------------------------------------------------

  /** Flow was seen at the last update, or its end less than five seconds ago. */
  ghost predicate Demand(boot: nat, h: seq<Turn>, side: Side)
    requires h != []
  {
    Active(boot, h, side) || exists k :: 0 <= k < |h| && Stops(boot, h, k, side) && Recent(h, k)
  }

  predicate Recent(h: seq<Turn>, k: nat)
    requires k < |h|
  {
    Ms(h[|h| - 1].nowUs) - Ms(h[k].stopUs) < 5000
  }

  lemma {:induction false} CountedWithin(boot: nat, h: seq<Turn>, side: Side, bound: nat)
    requires forall i :: 0 <= i < |h| ==> Pulses(h[i], side) <= bound
    ensures Counted(boot, h, side) <= bound
  {
    if h != [] { CountedWithin(boot, h[..|h| - 1], side, bound); }
  }

  /** At an update, flow is seen exactly if the pulses since the one before exceed 66 for every 100 seconds;
      the wrap of the counter does not show below 2^32 of them. */
  lemma ActiveIff(boot: nat, h: seq<Turn>, side: Side)
    requires Timely(boot, h) && h != [] && Updates(boot, h)
    requires Pulses(h[|h| - 1], side) - Counted(boot, h[..|h| - 1], side) < WRAP
    ensures var f, t := h[..|h| - 1], h[|h| - 1];
      && Counted(boot, f, side) <= Pulses(t, side)
      && (Active(boot, h, side) <==>
          100_000_000 * (Pulses(t, side) - Counted(boot, f, side)) > 66 * (t.updateUs - LastUpdate(boot, f)))
  {
    hide Flows, LastUpdate, Counted;
    var f, t := h[..|h| - 1], h[|h| - 1];
    CountedWithin(boot, f, side, Pulses(t, side));
    FlowsIff(Pulses(t, side) - Counted(boot, f, side), t.updateUs - LastUpdate(boot, f));
  }

  /** The sensors are looked at no later than in the first turn that reads the clock a second after the last time, and never
      more often than once a second. */
  lemma UpdateSpacing(boot: nat, h: seq<Turn>)
    requires h != []
    ensures var f, t := h[..|h| - 1], h[|h| - 1];
      && t.updateUs - LastUpdate(boot, h) < 1_000_000
      && (LastUpdate(boot, h) == LastUpdate(boot, f) || LastUpdate(boot, h) - LastUpdate(boot, f) >= 1_000_000)
      && (Updates(boot, h) <==> LastUpdate(boot, h) != LastUpdate(boot, f))
  {
  }

  /** The program remembers the latest end of flow. */
  lemma {:induction false} LatestStop(boot: nat, h: seq<Turn>, side: Side) returns (n: nat)
    ensures n <= |h|
    ensures n == 0 ==> LastStop(boot, h, side) == 0
    ensures n > 0 ==> Stops(boot, h, n - 1, side) && LastStop(boot, h, side) == Millis32(Ms(h[n - 1].stopUs))
    ensures LatestEnd(boot, h, side) == if n > 0 then Some(Ms(h[n - 1].stopUs)) else None
    ensures forall k :: n <= k < |h| ==> !Stops(boot, h, k, side)
  {
    hide Active;
    n := 0;
    if h != [] {
      var f := h[..|h| - 1];
      assert h[..|h|] == h;
      if Active(boot, f, side) && !Active(boot, h, side) {
        n := |h|;
      } else {
        n := LatestStop(boot, f, side);
        forall k | 0 <= k < |f|
          ensures Stops(boot, f, k, side) == Stops(boot, h, k, side)
        {
          assert f[..k] == h[..k] && f[..k + 1] == h[..k + 1];
        }
      }
    }
  }

  /** Flow that ends has lasted from one update to the next: not within the first second. */
  lemma {:induction false} StopsLate(boot: nat, h: seq<Turn>, n: nat, side: Side)
    requires Timely(boot, h) && n < |h| && Stops(boot, h, n, side)
    ensures Ms(h[n].stopUs) >= 1000
  {
    assert h[..n + 1][..n] == h[..n];
    assert Updates(boot, h[..n + 1]);
  }

  /** The real time of the latest end of flow. */
  function LatestEnd(boot: nat, h: seq<Turn>, side: Side): Option<nat> {
    if h == [] then None
    else if Active(boot, h[..|h| - 1], side) && !Active(boot, h, side) then Some(Ms(h[|h| - 1].stopUs))
    else LatestEnd(boot, h[..|h| - 1], side)
  }

  /** When the 32-bit hold-off answers as the real one would: the clock has not been read backwards, the end of flow
      was not recorded as the zero that stands for none, and the time since does not come round to less than five seconds. */
  predicate HoldOffRight(stop: nat, now: nat) {
    if now < stop then false
    else if stop % WRAP == 0 then now - stop >= 5000
    else now - stop < 5000 || (now - stop) % WRAP >= 5000
  }

  predicate DemandRight(boot: nat, h: seq<Turn>, side: Side)
    requires h != []
  {
    Active(boot, h, side) || LatestEnd(boot, h, side).None?
    || HoldOffRight(LatestEnd(boot, h, side).value, Ms(h[|h| - 1].nowUs))
  }

  /** A turn that sees flow end does not itself take more than 2^32 - 5000 ms. */
  predicate Brisk(boot: nat, h: seq<Turn>, side: Side)
    requires h != []
  {
    StopsNow(boot, h, side) ==> Ms(h[|h| - 1].stopUs) - Ms(h[|h| - 1].nowUs) <= WRAP - DELAY_OFF_MS
  }

  /** In runs of any length the program's demand is the real one exactly if flow is seen, has never ended, or ended at a
      moment from which the 32-bit hold-off still answers rightly. */
  lemma DemandIff(boot: nat, h: seq<Turn>, side: Side)
    requires Timely(boot, h) && h != [] && Brisk(boot, h, side)
    ensures (Demand32(boot, h, side) <==> Demand(boot, h, side)) <==> DemandRight(boot, h, side)
  {
    hide Active, LastStop, LatestEnd, HoldOffActive, HoldOffRight, Ms, Timely;
    var n := LatestStop(boot, h, side);
    if n > 0 {
      LatestIsRecent(boot, h, n, side);
      HoldOffExact(Ms(h[n - 1].stopUs), Ms(h[|h| - 1].nowUs));
    } else {
      NeverHeld(Ms(h[|h| - 1].nowUs));
    }
  }

  lemma NeverHeld(now: nat)
    ensures !HoldOffActive(0, Millis32(now))
  {
  }

  /** In a run shorter than the wrap of the clock that leaves out only a turn that itself saw the flow end and whose later
      clock reading shows a later millisecond. */
  lemma DemandInFirstRound(boot: nat, h: seq<Turn>, side: Side)
    requires Timely(boot, h) && h != [] && Ms(h[|h| - 1].stopUs) < WRAP
    ensures DemandRight(boot, h, side) <==> (StopsNow(boot, h, side) ==> Ms(h[|h| - 1].nowUs) == Ms(h[|h| - 1].stopUs))
  {
    hide Active, LastStop, LatestEnd, Ms;
    var n := LatestStop(boot, h, side);
    assert h[..|h|] == h;
    MsMonotone(h[|h| - 1].nowUs, h[|h| - 1].stopUs);
    if n > 0 {
      StopsLate(boot, h, n - 1, side);
      LatestIsRecent(boot, h, n, side);
      MsMonotone(h[n - 1].stopUs, h[|h| - 1].stopUs);
    }
  }

  /** A turn in which it is not: cold water runs up to five seconds and has stopped at the sixth, and the clock moves
      on by a millisecond before the end of flow is recorded. */
  lemma DemandMissed()
    ensures var h := [Turn(5_000_000, 5_000_000, 5_000_000, 100, 0, Normal), Turn(6_000_000, 6_000_000, 6_001_000, 100, 0, Normal)];
      Timely(0, h) && StopsNow(0, h, Cold) && Demand(0, h, Cold) && !Demand32(0, h, Cold) && !Decided(0, h).cold
  {
    var t, u := Turn(5_000_000, 5_000_000, 5_000_000, 100, 0, Normal), Turn(6_000_000, 6_000_000, 6_001_000, 100, 0, Normal);
    var h := [t, u];
    FlowsIff(100, 5_000_000);
    FlowsIff(0, 1_000_000);
    assert [t][..0] == [] && h[..1] == [t] && h[..2] == h;
    assert LastUpdate(0, [t]) == 5_000_000 && Counted(0, [t], Cold) == 100;
    assert Active(0, [t], Cold) && !Active(0, h, Cold);
    assert Ms(6_001_000) == 6001 && LastStop(0, h, Cold) == 6001;
    assert Recent(h, 1) && Stops(0, h, 1, Cold);
  }

  /** The last turn saw the flow end. */
  predicate StopsNow(boot: nat, h: seq<Turn>, side: Side)
    requires h != []
  {
    Stops(boot, h, |h| - 1, side)
  }

  lemma MsMonotone(a: nat, b: nat)
    requires a <= b
    ensures Ms(a) <= Ms(b)
  {
  }

  lemma LatestIsRecent(boot: nat, h: seq<Turn>, n: nat, side: Side)
    requires Timely(boot, h) && 0 < n <= |h| && Stops(boot, h, n - 1, side) && forall k :: n <= k < |h| ==> !Stops(boot, h, k, side)
    ensures Active(boot, h, side) || (Demand(boot, h, side) <==> Ms(h[|h| - 1].nowUs) - Ms(h[n - 1].stopUs) < DELAY_OFF_MS)
    ensures n == |h| ==> !Active(boot, h, side)
    ensures n < |h| ==> Ms(h[n - 1].stopUs) <= Ms(h[|h| - 1].nowUs)
  {
    hide Active, Ms;
    assert h[..|h|] == h;
    if n < |h| { MsMonotone(h[n - 1].stopUs, h[|h| - 1].nowUs); }
    forall k | 0 <= k < |h| && Stops(boot, h, k, side) && Recent(h, k)
      ensures Recent(h, n - 1)
    {
      MsMonotone(h[k].stopUs, h[n - 1].stopUs);
    }
  }

  /** What is meant: off for three seconds, then what the mode asks for on the real demand. */
  ghost function Intended(boot: nat, h: seq<Turn>): Relays
    requires h != []
  {
    if Ms(h[|h| - 1].nowUs) <= 3000 then Relays(false, false) else Wanted(boot, h)
  }

  ghost function Wanted(boot: nat, h: seq<Turn>): Relays
    requires h != []
  {
    Table(h[|h| - 1].mode, Demand(boot, h, Cold), Demand(boot, h, Hot))
  }

  /** In runs of any length, with the demand right: the relays do what is meant exactly unless the 32-bit clock has come
      round, to its first three seconds, while some relay is wanted. */
  lemma RelaysIff(boot: nat, h: seq<Turn>)
    requires Timely(boot, h) && h != [] && forall side :: Brisk(boot, h, side) && DemandRight(boot, h, side)
    ensures var now := Ms(h[|h| - 1].nowUs);
      Decided(boot, h) == Intended(boot, h) <==>
      now <= 3000 || now % WRAP > 3000 || Wanted(boot, h) == Relays(false, false)
  {
    hide Active, LastStop, LatestEnd, HoldOffRight, Ms, Timely;
    DemandIff(boot, h, Cold);
    DemandIff(boot, h, Hot);
  }

  /** Then, past the first three seconds of the 32-bit clock, the hot pump runs just when hot water is asked for, or in mode Duo
      cold water, and the cold pump just when cold water is, or in modes Duo and Mix hot water. */
  lemma RelaysByMode(boot: nat, h: seq<Turn>)
    requires Timely(boot, h) && h != [] && forall side :: Brisk(boot, h, side) && DemandRight(boot, h, side)
    requires Ms(h[|h| - 1].nowUs) % 0x1_0000_0000 > 3000
    ensures var mode := h[|h| - 1].mode; var cold, hot := Demand(boot, h, Cold), Demand(boot, h, Hot);
      && (Decided(boot, h).hot <==> hot || (mode == Duo && cold))
      && (Decided(boot, h).cold <==> cold || ((mode == Duo || mode == Mix) && hot))
  {
    hide Ms, Timely, Demand, DemandRight, Decided, Brisk;
    RelaysIff(boot, h);
  }

  /** Within a run shorter than the wrap whose two clock readings agree whenever flow ends: both relays are off up to
      three seconds, and afterwards follow the mode's table on the real demand. */
  lemma RelaysFollowDemand(boot: nat, h: seq<Turn>)
    requires Timely(boot, h) && h != [] && Ms(h[|h| - 1].stopUs) < WRAP
    requires forall side :: StopsNow(boot, h, side) ==> Ms(h[|h| - 1].nowUs) == Ms(h[|h| - 1].stopUs)
    ensures Decided(boot, h) ==
      if Ms(h[|h| - 1].nowUs) <= 3000 then Relays(false, false)
      else Table(h[|h| - 1].mode, Demand(boot, h, Cold), Demand(boot, h, Hot))
    ensures Ms(h[|h| - 1].nowUs) > 3000 ==>
      var mode := h[|h| - 1].mode; var cold, hot := Demand(boot, h, Cold), Demand(boot, h, Hot);
      && (Decided(boot, h).hot <==> hot || (mode == Duo && cold))
      && (Decided(boot, h).cold <==> cold || ((mode == Duo || mode == Mix) && hot))
  {
    hide Ms, Timely, Demand, DemandRight, Decided;
    MsInTurn(boot, h);
    forall side
      ensures Brisk(boot, h, side) && DemandRight(boot, h, side)
    {
      DemandInFirstRound(boot, h, side);
    }
    RelaysIff(boot, h);
  }

  lemma MsInTurn(boot: nat, h: seq<Turn>)
    requires Timely(boot, h) && h != []
    ensures Ms(h[|h| - 1].nowUs) <= Ms(h[|h| - 1].stopUs)
  {
  }

  /** The hold-off on 32 bits against the real one, on any pair of moments less than a wrap apart. */
  lemma HoldOffExact(stop: nat, now: nat)
    requires -(WRAP - DELAY_OFF_MS) <= now - stop
    ensures (HoldOffActive(Millis32(stop), Millis32(now)) <==> now - stop < 5000) <==> HoldOffRight(stop, now)
  {
    if stop <= now {
      Minus32Exact(now, stop);
    } else {
      Behind(now, stop);
    }
  }

  lemma Behind(now: nat, stop: nat)
    requires now < stop <= now + WRAP - DELAY_OFF_MS
    ensures Minus32(Millis32(now), Millis32(stop)) >= DELAY_OFF_MS
  {
    Minus32Exact(now + WRAP, stop);
    assert (now + WRAP) % WRAP == now % WRAP;
  }

  /** Whenever the 32-bit clock has come round, both relays are off for three seconds, flow or no flow. */
  lemma InhibitRecurs(boot: nat, h: seq<Turn>, rounds: nat)
    requires h != [] && rounds * WRAP <= Ms(h[|h| - 1].nowUs) <= rounds * WRAP + 3000
    ensures Decided(boot, h) == Relays(false, false)
  {
    assert Ms(h[|h| - 1].nowUs) % WRAP == Ms(h[|h| - 1].nowUs) - rounds * WRAP by {
      assert Ms(h[|h| - 1].nowUs) / WRAP == rounds;
    }
  }
}
