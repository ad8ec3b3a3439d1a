/** Milliseconds on a 32-bit counter that wraps. */
module Clock {
  const WRAP := 0x1_0000_0000

  function Millis32(t: nat): nat {
    t % WRAP
  }

  /** Unsigned 32-bit subtraction. */
  function Minus32(a: nat, b: nat): nat {
    (a as int - b) % WRAP
  }

  lemma Minus32Exact(now: nat, since: nat)
    requires since <= now
    ensures Minus32(Millis32(now), Millis32(since)) == (now - since) % 0x1_0000_0000
    ensures now - since < 0x1_0000_0000 ==> Minus32(Millis32(now), Millis32(since)) == now - since
  {
    assert now == now / WRAP * WRAP + now % WRAP && since == since / WRAP * WRAP + since % WRAP;
    var d := now % WRAP - since % WRAP;
    var q := now / WRAP - since / WRAP;
    assert now - since == q * WRAP + d;
    assert d % WRAP == (now - since) % WRAP by {
      if d >= 0 { assert (now - since) / WRAP == q; } else { assert (now - since) / WRAP == q - 1; }
    }
  }
}

/** The mode button: debouncing on a 32-bit millisecond clock, and the mode it and remote commands select. */
module Modos {
  import opened Clock

  datatype Mode = Normal | Duo | Mix

  /** What reaches the module: samples of the button at real times, and commands from elsewhere. */
  datatype Input = Sample(at: nat, high: bool) | Command(mode: Mode)

  const DEBOUNCE_MS := 120
  function Following(m: Mode): Mode {
    match m
    case Normal => Duo
    case Duo => Mix
    case Mix => Normal
  }

  // ---- the state as a function of everything that came in -------------------------------------

  function Front(h: seq<Input>): seq<Input>
    requires h != []
  {
    h[..|h| - 1]
  }

  function Last(h: seq<Input>): Input
    requires h != []
  {
    h[|h| - 1]
  }

  /** The latest sample; the button counts as released before the first. */
  function Raw(h: seq<Input>): bool {
    if h == [] then true else if Last(h).Sample? then Last(h).high else Raw(Front(h))
  }

  /** When the run of equal samples that is still going on began. */
  function Since(boot: nat, h: seq<Input>): nat {
    if h == [] then boot
    else if Last(h).Sample? && Last(h).high != Raw(Front(h)) then Last(h).at
    else Since(boot, Front(h))
  }

  function Stable(boot: nat, h: seq<Input>): bool {
    if h == [] then true
    else if Last(h).Sample? && Minus32(Millis32(Last(h).at), Millis32(Since(boot, h))) > DEBOUNCE_MS then Last(h).high
    else Stable(boot, Front(h))
  }

  predicate Flips(boot: nat, h: seq<Input>, n: nat)
    requires n < |h|
  {
    Stable(boot, h[..n + 1]) != Stable(boot, h[..n])
  }

  predicate Press(boot: nat, h: seq<Input>, n: nat)
    requires n < |h|
  {
    Stable(boot, h[..n]) && !Stable(boot, h[..n + 1])
  }

  function Presses(boot: nat, h: seq<Input>): nat {
    if h == [] then 0 else Presses(boot, Front(h)) + (if Stable(boot, Front(h)) && !Stable(boot, h) then 1 else 0)
  }

  function ModeAfter(boot: nat, h: seq<Input>): Mode {
    if h == [] then Normal
    else if Last(h).Command? then Last(h).mode
    else if Stable(boot, Front(h)) && !Stable(boot, h) then Following(ModeAfter(boot, Front(h)))
    else ModeAfter(boot, Front(h))
  }

  /** Samples come in order of time. */
  predicate InOrder(boot: nat, h: seq<Input>) {
    && (forall i :: 0 <= i < |h| && h[i].Sample? ==> boot <= h[i].at)
    && (forall i, j :: 0 <= i < j < |h| && h[i].Sample? && h[j].Sample? ==> h[i].at <= h[j].at)
  }

  // ---- the module --------------------------------------------------------------------------

  class Buttons {
    var mode: Mode
    var stable: bool
    var lastRaw: bool
    var lastDebounceMs: nat
    ghost var boot: nat
    ghost var history: seq<Input>

    ghost predicate Valid()
      reads this
    {
      && InOrder(boot, history)
      && mode == ModeAfter(boot, history) && stable == Stable(boot, history) && lastRaw == Raw(history)
      && lastDebounceMs == Millis32(Since(boot, history))
    }

    constructor (now: nat)
      ensures Valid() && boot == now && history == []
    {
      mode, stable, lastRaw, lastDebounceMs := Normal, true, true, Millis32(now);
      boot, history := now, [];
    }

    method Set(m: Mode)
      requires Valid()
      modifies this
      ensures Valid() && boot == old(boot) && history == old(history) + [Command(m)]
    {
      ghost var h := history + [Command(m)];
      assert Front(h) == history;
      history := h;
      SetMode(m);
    }

    method SetMode(m: Mode)
      modifies this`mode
      ensures mode == m
    {
      if m == mode { return; }
      mode := m;
    }

    method Next()
      modifies this`mode
      ensures mode == Following(old(mode))
    {
      match mode {
        case Normal => SetMode(Duo);
        case Duo => SetMode(Mix);
        case Mix => SetMode(Normal);
      }
    }

    method UpdateButton(ghost at: nat, now: nat, btnRaw: bool)
      requires Valid() && now == Millis32(at) && InOrder(boot, history + [Sample(at, btnRaw)])
      modifies this
      ensures Valid() && boot == old(boot) && history == old(history) + [Sample(at, btnRaw)]
    {
      hide Minus32, Millis32, InOrder;
      ghost var h := history + [Sample(at, btnRaw)];
      assert Front(h) == history;
      if btnRaw != lastRaw {
        lastRaw := btnRaw;
        lastDebounceMs := now;
      }
      if Minus32(now, lastDebounceMs) > DEBOUNCE_MS {
        if stable != lastRaw {
          var oldStable := stable;
          stable := lastRaw;
          if oldStable && !stable {
            Next();
          }
        }
      }
      history := h;
    }
  }

  // ---- what the debounced button means --------------------------------------------------------

  /** No sample of the last `ms` milliseconds before sample n, and none since, is at another level; and
      the level was already there at some moment before that. */
  ghost predicate SteadyFor(boot: nat, h: seq<Input>, n: nat, ms: nat)
    requires n < |h| && h[n].Sample?
  {
    || (boot + ms < h[n].at && SameLevel(h, 0, n, true))
    || exists k :: 0 <= k <= n && EarlyEnough(h, k, n, ms) && SameLevel(h, k, n, h[n].high)
  }

  predicate EarlyEnough(h: seq<Input>, k: nat, n: nat, ms: nat)
    requires k <= n < |h| && h[n].Sample?
  {
    h[k].Sample? && h[k].at + ms < h[n].at
  }

  predicate SameLevel(h: seq<Input>, k: nat, n: nat, high: bool)
    requires k <= n < |h|
  {
    forall i :: k <= i <= n && h[i].Sample? ==> h[i].high == high
  }

  /** The run that counts begins at boot, or at a sample from which on all are equal. */
  lemma {:induction false} SinceIsRunStart(boot: nat, h: seq<Input>, n: nat) returns (k: nat)
    requires n < |h|
    ensures k <= n + 1
    ensures k == 0 ==> Since(boot, h[..n + 1]) == boot && Raw(h[..n + 1]) && SameLevel(h, 0, n, true)
    ensures k > 0 ==> h[k - 1].Sample? && Since(boot, h[..n + 1]) == h[k - 1].at && SameLevel(h, k - 1, n, Raw(h[..n + 1]))
    ensures k > 0 ==> Raw(h[..k - 1]) != h[k - 1].high
    ensures h[n].Sample? ==> Raw(h[..n + 1]) == h[n].high
  {
    assert Front(h[..n + 1]) == h[..n];
    if h[n].Sample? && h[n].high != Raw(h[..n]) {
      k := n + 1;
    } else if n == 0 {
      k := 0;
      assert Raw(h[..0]) && Since(boot, h[..0]) == boot;
    } else {
      k := SinceIsRunStart(boot, h, n - 1);
    }
  }

  /** A level that held from sample k on began no later than that. */
  lemma {:induction false} RunStartsBy(boot: nat, h: seq<Input>, k: nat, n: nat)
    requires InOrder(boot, h) && k <= n < |h| && h[k].Sample? && SameLevel(h, k, n, h[k].high)
    ensures Since(boot, h[..n + 1]) <= h[k].at && Raw(h[..n + 1]) == h[k].high
  {
    assert Front(h[..n + 1]) == h[..n];
    if k < n {
      RunStartsBy(boot, h, k, n - 1);
    } else {
      var j := SinceIsRunStart(boot, h, n);
    }
  }

  lemma {:induction false} RunStartsAtBoot(boot: nat, h: seq<Input>, n: nat)
    requires n <= |h| && (n > 0 ==> SameLevel(h, 0, n - 1, true))
    ensures Since(boot, h[..n]) == boot && Raw(h[..n])
  {
    if n > 0 {
      assert Front(h[..n]) == h[..n - 1];
      RunStartsAtBoot(boot, h, n - 1);
    }
  }

  lemma SteadyIff(boot: nat, h: seq<Input>, n: nat)
    requires InOrder(boot, h) && n < |h| && h[n].Sample?
    ensures SteadyFor(boot, h, n, 120) <==> h[n].at - Since(boot, h[..n + 1]) > 120
    ensures boot <= Since(boot, h[..n + 1]) <= h[n].at
  {
    var k := SinceIsRunStart(boot, h, n);
    if k > 0 && h[n].at - Since(boot, h[..n + 1]) > 120 {
      assert EarlyEnough(h, k - 1, n, 120);
    }
    if SteadyFor(boot, h, n, 120) {
      if boot + 120 < h[n].at && SameLevel(h, 0, n, true) {
        RunStartsAtBoot(boot, h, n + 1);
      } else {
        var j :| 0 <= j <= n && EarlyEnough(h, j, n, 120) && SameLevel(h, j, n, h[n].high);
        RunStartsBy(boot, h, j, n);
      }
    }
  }

  /** On any history the debounced level changes at a sample only if the other level has held for more than 120 ms; and
      it changes whenever that is so exactly if the age of the run, seen through the 32-bit clock, is over 120 ms too. */
  lemma FlipInRun(boot: nat, h: seq<Input>, n: nat)
    requires InOrder(boot, h) && n < |h|
    ensures Flips(boot, h, n) ==> h[n].Sample? && h[n].high != Stable(boot, h[..n]) && SteadyFor(boot, h, n, 120)
    ensures h[n].Sample? ==>
      var age := h[n].at - Since(boot, h[..n + 1]); var other := h[n].high != Stable(boot, h[..n]);
      && age >= 0
      && ((Flips(boot, h, n) <==> other && SteadyFor(boot, h, n, 120))
          <==> (other && age > 120 ==> age % WRAP > 120))
  {
    assert Front(h[..n + 1]) == h[..n];
    if h[n].Sample? {
      SteadyIff(boot, h, n);
      Minus32Exact(h[n].at, Since(boot, h[..n + 1]));
    }
  }

  /** The time of the latest sample. */
  function LastAt(boot: nat, h: seq<Input>): nat {
    if h == [] then boot else if Last(h).Sample? then Last(h).at else LastAt(boot, Front(h))
  }

  /** The module is called often enough: never more than 2^32 - 120 ms without a sample. */
  predicate SampledOften(boot: nat, h: seq<Input>) {
    forall i :: 0 <= i < |h| && h[i].Sample? ==> h[i].at - LastAt(boot, h[..i]) < WRAP - 120
  }

  /** Sampled often enough, the debounced level is that of every run older than 120 ms, however old. */
  lemma {:induction false} StableInOldRuns(boot: nat, h: seq<Input>, n: nat)
    requires InOrder(boot, h) && SampledOften(boot, h) && n <= |h|
    ensures Since(boot, h[..n]) <= LastAt(boot, h[..n])
    ensures LastAt(boot, h[..n]) - Since(boot, h[..n]) > 120 ==> Stable(boot, h[..n]) == Raw(h[..n])
  {
    if n > 0 {
      assert Front(h[..n]) == h[..n - 1] && Last(h[..n]) == h[n - 1];
      StableInOldRuns(boot, h, n - 1);
      if h[n - 1].Sample? {
        LastAtInOrder(boot, h, n - 1, n - 1);
        hide Minus32, Millis32;
        Minus32Exact(h[n - 1].at, Since(boot, h[..n]));
      }
    }
  }

  lemma {:induction false} LastAtInOrder(boot: nat, h: seq<Input>, k: nat, n: nat)
    requires InOrder(boot, h) && k <= n < |h| && h[n].Sample?
    ensures LastAt(boot, h[..k]) <= h[n].at
  {
    if k > 0 {
      assert Front(h[..k]) == h[..k - 1];
      LastAtInOrder(boot, h, k - 1, n);
    }
  }

  /** In every history sampled often enough the debounced level changes at a sample exactly when the sample is at the other
      level and that level has held for more than 120 ms; there is no limit on how long the button rests. */
  lemma FlipIff(boot: nat, h: seq<Input>, n: nat)
    requires InOrder(boot, h) && SampledOften(boot, h) && n < |h|
    ensures Flips(boot, h, n) <==> h[n].Sample? && h[n].high != Stable(boot, h[..n]) && SteadyFor(boot, h, n, 120)
  {
    FlipInRun(boot, h, n);
    if h[n].Sample? {
      assert Front(h[..n + 1]) == h[..n] && Last(h[..n + 1]) == h[n];
      StableInOldRuns(boot, h, n);
    }
  }

  /** The bound on the gaps cannot be higher: one of exactly 2^32 - 120 ms, and a press that has lasted is missed. */
  lemma WrapHidesARun()
    ensures var h := [Sample(0, false), Sample(120, false), Sample(WRAP, false)];
      && InOrder(0, h) && h[2].at - LastAt(0, h[..2]) == WRAP - 120
      && SteadyFor(0, h, 2, 120) && h[2].high != Stable(0, h[..2]) && !Flips(0, h, 2)
  {
    var a, b, c := Sample(0, false), Sample(120, false), Sample(WRAP, false);
    var h := [a, b, c];
    assert h[..2] == [a, b] && h[..3] == h && Front(h) == [a, b] && Front([a, b]) == [a] && Front([a]) == [];
    assert Since(0, [a]) == 0 && Since(0, [a, b]) == 0 && Since(0, h) == 0;
    assert Stable(0, [a]) && Stable(0, [a, b]);
    assert EarlyEnough(h, 0, 2, 120) && SameLevel(h, 0, 2, false);
  }

  /** Between two flips the level must change and hold again. */
  lemma {:induction false} FlipsFarApart(boot: nat, h: seq<Input>, m: nat, n: nat)
    requires InOrder(boot, h) && m < n < |h| && Flips(boot, h, m) && Flips(boot, h, n)
    ensures h[m].Sample? && h[n].Sample? && h[n].at - h[m].at > 120
    decreases n - m
  {
    FlipInRun(boot, h, m);
    FlipInRun(boot, h, n);
    if k :| m < k < n && Flips(boot, h, k) {
      FlipsFarApart(boot, h, m, k);
    } else {
      StableBetween(boot, h, m + 1, n);
      assert Front(h[..m + 1]) == h[..m];
      if !SameLevel(h, 0, n, true) {
        var k :| 0 <= k <= n && EarlyEnough(h, k, n, 120) && SameLevel(h, k, n, h[n].high);
      }
    }
  }

  lemma {:induction false} StableBetween(boot: nat, h: seq<Input>, m: nat, n: nat)
    requires m <= n <= |h| && forall k :: m <= k < n ==> !Flips(boot, h, k)
    ensures Stable(boot, h[..n]) == Stable(boot, h[..m])
  {
    if m < n {
      StableBetween(boot, h, m, n - 1);
      assert !Flips(boot, h, n - 1);
    }
  }

  function Index(m: Mode): nat {
    match m
    case Normal => 0
    case Duo => 1
    case Mix => 2
  }

  /** From any moment without commands since, the mode has advanced by the number of presses, modulo three. */
  lemma {:induction false} ModeCountsPresses(boot: nat, h: seq<Input>, s: nat)
    requires s <= |h| && forall i :: s <= i < |h| ==> h[i].Sample?
    ensures Presses(boot, h) >= Presses(boot, h[..s])
    ensures Index(ModeAfter(boot, h)) == (Index(ModeAfter(boot, h[..s])) + Presses(boot, h) - Presses(boot, h[..s])) % 3
  {
    hide Stable;
    if s == |h| {
      assert h[..s] == h;
    } else {
      assert Front(h)[..s] == h[..s];
      ModeCountsPresses(boot, Front(h), s);
    }
  }

  /** A command decides the mode whatever came before; the presses counted are the flips to low. */
  lemma {:induction false} CommandDecides(boot: nat, h: seq<Input>, s: nat)
    requires 0 < s <= |h| && h[s - 1].Command? && forall i :: s <= i < |h| ==> h[i].Sample?
    ensures Index(ModeAfter(boot, h)) == (Index(h[s - 1].mode) + |PressesSince(boot, h, s)|) % 3
  {
    PressesCounted(boot, h, s);
    ModeCountsPresses(boot, h, s);
    assert Last(h[..s]) == h[s - 1];
  }

  /** A press is a sample at low level, seen while the debounced level is high, when low has held for more than 120 ms. */
  lemma PressIff(boot: nat, h: seq<Input>, n: nat)
    requires InOrder(boot, h) && SampledOften(boot, h) && n < |h|
    ensures Press(boot, h, n) <==> h[n].Sample? && !h[n].high && Stable(boot, h[..n]) && SteadyFor(boot, h, n, 120)
  {
    FlipIff(boot, h, n);
    assert Front(h[..n + 1]) == h[..n];
  }

  /** Without commands the presses since boot lead round from Normal over Duo and Mix. */
  lemma ModeByPresses(boot: nat, h: seq<Input>)
    requires forall i :: 0 <= i < |h| ==> h[i].Sample?
    ensures ModeAfter(boot, h) == [Normal, Duo, Mix][|PressesSince(boot, h, 0)| % 3]
  {
    PressesCounted(boot, h, 0);
    ModeCountsPresses(boot, h, 0);
    assert h[..0] == [] && Index(Normal) == 0;
    assert Index(ModeAfter(boot, h)) == |PressesSince(boot, h, 0)| % 3;
  }

  ghost function PressesSince(boot: nat, h: seq<Input>, s: nat): set<nat> {
    set n | s <= n < |h| && Press(boot, h, n)
  }

  lemma {:induction false} PressesCounted(boot: nat, h: seq<Input>, s: nat)
    requires s <= |h|
    ensures Presses(boot, h) - Presses(boot, h[..s]) == |PressesSince(boot, h, s)|
  {
    hide Stable;
    if s == |h| {
      assert h[..s] == h && PressesSince(boot, h, s) == {};
    } else {
      var f, n := Front(h), |h| - 1;
      assert f[..s] == h[..s];
      PressesCounted(boot, f, s);
      forall i | s <= i < n
        ensures Press(boot, f, i) == Press(boot, h, i)
      {
        assert f[..i] == h[..i] && f[..i + 1] == h[..i + 1];
      }
      assert h[..n] == f && h[..n + 1] == h;
      assert PressesSince(boot, h, s) == PressesSince(boot, f, s) + if Press(boot, h, n) then {n} else {};
    }
  }
}
