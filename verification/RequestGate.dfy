/** The spacing gate of Telegram requests: intervals, cooldowns, and what a run of waits guarantees. */
module RequestGate {
  import opened PyText

  function Max(a: real, b: real): real { if a >= b then a else b }
  function Min(a: real, b: real): real { if a <= b then a else b }

  /** The gate's fields; `owner` is the event loop its lock belongs to. */
  datatype Gate = Gate(
    default: real,
    max: real,
    current: real,
    owner: Option<int>,
    nextAt: real,
    cooldownUntil: real,
    floodEvents: nat)

  /** `__init__`. */
  function NewGate(minInterval: real, maxInterval: real, defaultInterval: real): Gate {
    var default := Max(0.0, defaultInterval);
    Gate(default, Max(Max(0.0, minInterval), maxInterval), default, None, 0.0, 0.0, 0)
  }

  /** When a wait that begins now may pass. */
  function Target(g: Gate): real { Max(g.nextAt, g.cooldownUntil) }

  /** `_ensure_lock`: another loop forgets the schedule. */
  function Adopt(g: Gate, loop: int): Gate {
    if g.owner == Some(loop) then g else g.(owner := Some(loop), nextAt := 0.0, cooldownUntil := 0.0)
  }

  /** The locked part of `wait`. */
  function Pass(g: Gate, now: real, loop: int): Gate {
    var a := Adopt(g, loop);
    a.(nextAt := now + a.current,
       current := if a.current > a.default && now >= a.cooldownUntil
                  then Max(a.default, a.current * 0.85)
                  else a.current)
  }

  function Success(g: Gate): Gate {
    if g.current <= g.default then g else g.(current := Max(g.default, g.current * 0.9))
  }

  /** `float(seconds or 5.0)`, at least one second. */
  function WaitFor(seconds: Option<real>): real {
    Max(1.0, if seconds.Some? && seconds.value != 0.0 then seconds.value else 5.0)
  }

  function Flood(g: Gate, seconds: Option<real>, now: real): Gate {
    var until := Max(g.cooldownUntil, now + WaitFor(seconds));
    g.(floodEvents := g.floodEvents + 1,
       current := Min(g.max, Max(Max(g.current * 2.0, WaitFor(seconds) / 10.0), 0.2)),
       cooldownUntil := until,
       nextAt := Max(g.nextAt, until))
  }

  class TelegramRequestGate {
    const defaultInterval: real
    const maxInterval: real
    var currentInterval: real
    var lockLoop: Option<int>
    var nextAt: real
    var cooldownUntil: real
    var floodEvents: nat

    function State(): Gate
      reads this
    {
      Gate(defaultInterval, maxInterval, currentInterval, lockLoop, nextAt, cooldownUntil, floodEvents)
    }

    constructor (minInterval: real, maxInterval: real, defaultInterval: real)
      ensures State() == NewGate(minInterval, maxInterval, defaultInterval)
    {
      this.defaultInterval := Max(0.0, defaultInterval);
      this.maxInterval := Max(Max(0.0, minInterval), maxInterval);
      currentInterval := Max(0.0, defaultInterval);
      lockLoop, nextAt, cooldownUntil, floodEvents := None, 0.0, 0.0, 0;
    }

    method EnsureLock(loop: int)
      modifies this
      ensures State() == Adopt(old(State()), loop)
    {
      if lockLoop.None? || lockLoop.value != loop {
        lockLoop := Some(loop);
        nextAt := 0.0;
        cooldownUntil := 0.0;
      }
    }

    /** The first phase of `wait`: how long to sleep, with nothing changed. */
    method SleepFor(now: real) returns (delay: real)
      ensures delay >= 0.0 && now + delay == Max(now, Target(State()))
    {
      delay := Max(nextAt, cooldownUntil) - now;
      if delay <= 0.0 {
        delay := 0.0;
      }
    }

    /** The second phase of `wait`, on waking. */
    method Proceed(now: real, loop: int)
      modifies this
      ensures State() == Pass(old(State()), now, loop)
    {
      EnsureLock(loop);
      nextAt := now + currentInterval;
      if currentInterval > defaultInterval && now >= cooldownUntil {
        currentInterval := Max(defaultInterval, currentInterval * 0.85);
      }
    }

    method NoteSuccess()
      modifies this
      ensures State() == Success(old(State()))
    {
      if currentInterval <= defaultInterval {
        return;
      }
      currentInterval := Max(defaultInterval, currentInterval * 0.9);
    }

    method NoteFloodWait(seconds: Option<real>, now: real)
      modifies this
      ensures State() == Flood(old(State()), seconds, now)
    {
      var waitFor := Max(1.0, if seconds.Some? && seconds.value != 0.0 then seconds.value else 5.0);
      floodEvents := floodEvents + 1;
      currentInterval := Min(maxInterval, Max(Max(currentInterval * 2.0, waitFor / 10.0), 0.2));
      cooldownUntil := Max(cooldownUntil, now + waitFor);
      nextAt := Max(nextAt, cooldownUntil);
    }
  }

  // ------------------------------------------------------------------------ runs

  /** One caller waits and passes in turn, on one loop; successes and floods are noted at any time. */
  datatype Event = Began(at: real) | Passed(at: real) | Succeeded(at: real) | Flooded(at: real, seconds: Option<real>)

  /** The gate, and while the caller sleeps the earliest time at which it wakes. */
  datatype World = World(gate: Gate, wakes: Option<real>)

  function Next(w: World, e: Event, loop: int): World {
    if e.Began? then w.(wakes := Some(Max(e.at, Target(w.gate))))
    else if e.Passed? then World(Pass(w.gate, e.at, loop), None)
    else if e.Succeeded? then w.(gate := Success(w.gate))
    else w.(gate := Flood(w.gate, e.seconds, e.at))
  }

  function After(start: Gate, run: seq<Event>, loop: int): World {
    if run == [] then World(start, None)
    else Next(After(start, run[..|run| - 1], loop), run[|run| - 1], loop)
  }

  predicate Possible(w: World, e: Event) {
    if e.Began? then w.wakes.None?
    else if e.Passed? then w.wakes.Some? && w.wakes.value <= e.at
    else true
  }

  /** A run of one sequential caller: time passes, and a sleeper wakes no sooner than it asked. */
  ghost predicate Sequential(start: Gate, run: seq<Event>, loop: int) {
    && (forall i, j :: 0 <= i < j < |run| ==> run[i].at <= run[j].at)
    && (forall i {:trigger run[i]} :: 0 <= i < |run| ==> Possible(After(start, run[..i], loop), run[i]))
  }

  lemma Prefix(start: Gate, run: seq<Event>, loop: int, n: nat)
    requires Sequential(start, run, loop) && n <= |run|
    ensures Sequential(start, run[..n], loop)
  {
    forall i | 0 <= i < n ensures Possible(After(start, run[..n][..i], loop), run[..n][i]) {
      assert run[..n][..i] == run[..i] && run[..n][i] == run[i];
    }
  }

  // -------------------------------------------------------------- interval bounds

  predicate InBounds(g: Gate) { g.default <= g.current <= g.max }

  lemma {:induction false} BoundsKept(start: Gate, run: seq<Event>, loop: int)
    requires start.default >= 0.0 && InBounds(start)
    ensures var g := After(start, run, loop).gate;
            g.default == start.default && g.max == start.max && InBounds(g)
    decreases |run|
  {
    if run != [] {
      BoundsKept(start, run[..|run| - 1], loop);
    }
  }

  /** The interval of a new gate stays between default and maximum on every run exactly when default <= maximum. */
  lemma IntervalBounded(minInterval: real, maxInterval: real, defaultInterval: real, loop: int)
    ensures var g := NewGate(minInterval, maxInterval, defaultInterval);
            (forall run :: InBounds(After(g, run, loop).gate)) <==> g.default <= g.max
  {
    var g := NewGate(minInterval, maxInterval, defaultInterval);
    if g.default <= g.max {
      forall run ensures InBounds(After(g, run, loop).gate) { BoundsKept(g, run, loop); }
    }
    assert After(g, [], loop).gate == g;
  }

  // -------------------------------------------------------------------- recovery

  function Pow(b: real, k: nat): real { if k == 0 then 1.0 else Pow(b, k - 1) * b }

  function Successes(g: Gate, k: nat): Gate { if k == 0 then g else Success(Successes(g, k - 1)) }

  lemma {:induction false} PowPositive(b: real, k: nat)
    requires b > 0.0
    ensures Pow(b, k) > 0.0
  {
    if k > 0 { PowPositive(b, k - 1); }
  }

  /** x * 0.9^k. */
  function Decayed(x: real, k: nat): real { x * Pow(0.9, k) }

  lemma DecayedStep(x: real, k: nat)
    requires x >= 0.0
    ensures Decayed(x, k) >= 0.0 && Decayed(x, k + 1) == Decayed(x, k) * 0.9
  {
    PowPositive(0.9, k);
    var p := Pow(0.9, k);
    hide Pow;
    assert x * p * 0.9 == x * (p * 0.9);
    assert Pow(0.9, k + 1) == p * 0.9 by { PowStep(0.9, k); }
  }

  lemma PowStep(b: real, k: nat)
    ensures Pow(b, k + 1) == Pow(b, k) * b
  {
  }

  /** k successes multiply the interval by 0.9^k, down to the default. */
  lemma {:induction false} SuccessesDecay(g: Gate, k: nat)
    requires 0.0 <= g.default <= g.current
    ensures Successes(g, k) == g.(current := Max(g.default, Decayed(g.current, k)))
  {
    if k > 0 {
      SuccessesDecay(g, k - 1);
      DecayedStep(g.current, k - 1);
      hide Decayed;
    }
  }

  lemma {:induction false} PowAdd(b: real, m: nat, n: nat)
    ensures Pow(b, m + n) == Pow(b, m) * Pow(b, n)
  {
    if n > 0 {
      PowAdd(b, m, n - 1);
      assert Pow(b, m + n) == Pow(b, m + n - 1) * b;
      assert Pow(b, m) * Pow(b, n - 1) * b == Pow(b, m) * (Pow(b, n - 1) * b);
    }
  }

  lemma PowersOfNineTenths()
    ensures Pow(0.9, 35) > 0.025 && 0.0 < Pow(0.9, 36) < 0.025
  {
    var p := Pow(0.9, 4);
    assert Pow(0.9, 1) == 0.9 && Pow(0.9, 2) == 0.81 && Pow(0.9, 3) == 0.729 && p == 0.6561;
    PowAdd(0.9, 4, 4);
    assert Pow(0.9, 8) == 0.43046721;
    PowAdd(0.9, 8, 8);
    assert 0.1853 < Pow(0.9, 16) < 0.18531;
    PowAdd(0.9, 16, 16);
    assert 0.1853 * 0.1853 < Pow(0.9, 32) < 0.18531 * 0.18531;
    PowAdd(0.9, 32, 3);
    PowAdd(0.9, 32, 4);
  }

  lemma ShippedDecay(x: real)
    requires 0.0 <= x <= 2.0
    ensures Decayed(x, 36) <= 0.05 && Decayed(2.0, 35) > 0.05
  {
    PowersOfNineTenths();
    var p := Pow(0.9, 36);
    hide Pow;
    assert x * p <= 2.0 * p;
  }

  /** With the shipped interval of 0.05 and maximum of 2 seconds, 36 successes always suffice; 35 do not. */
  lemma ShippedRecovery(x: real)
    requires 0.05 <= x <= 2.0
    ensures var g := NewGate(0.05, 2.0, 0.05);
            && Successes(g.(current := x), 36).current == 0.05
            && Successes(g.(current := 2.0), 35).current > 0.05
  {
    var g := NewGate(0.05, 2.0, 0.05);
    ShippedDecay(x);
    SuccessesDecay(g.(current := x), 36);
    SuccessesDecay(g.(current := 2.0), 35);
    hide Decayed, Successes;
  }

  function SuccessCount(run: seq<Event>): nat {
    if run == [] then 0 else SuccessCount(run[..|run| - 1]) + if run[|run| - 1].Succeeded? then 1 else 0
  }

  /** The number of successes that a run notes. */
  lemma {:induction false} SuccessCountIs(run: seq<Event>)
    ensures SuccessCount(run) == |set i | 0 <= i < |run| && run[i].Succeeded?|
    decreases |run|
  {
    if run != [] {
      var n := |run| - 1;
      var init := run[..n];
      SuccessCountIs(init);
      var a, b := set i | 0 <= i < n && init[i].Succeeded?, set i | 0 <= i < |run| && run[i].Succeeded?;
      assert b == a + if run[n].Succeeded? then {n} else {};
    }
  }

  predicate FloodFree(run: seq<Event>) { forall e :: e in run ==> !e.Flooded? }

  /** Passes in between only speed recovery up. */
  lemma {:induction false} RecoveryInAnyRun(start: Gate, run: seq<Event>, loop: int)
    requires FloodFree(run) && 0.0 <= start.default <= start.current
    ensures var g := After(start, run, loop).gate;
            && g.default == start.default <= g.current
            && g.current <= Max(start.default, Decayed(start.current, SuccessCount(run)))
    decreases |run|
  {
    if run != [] {
      var init, e := run[..|run| - 1], run[|run| - 1];
      RecoveryInAnyRun(start, init, loop);
      DecayedStep(start.current, SuccessCount(init));
      hide Decayed;
      assert e in run;
    }
  }

  lemma {:induction false} DecayedLess(x: real, m: nat, n: nat)
    requires x >= 0.0 && m <= n
    ensures Decayed(x, n) <= Decayed(x, m)
  {
    if m < n {
      DecayedLess(x, m, n - 1);
      DecayedStep(x, n - 1);
      hide Decayed;
    }
  }

  /** Any run with at least 36 successes and no flood restores the shipped default. */
  lemma ShippedRecoveryInAnyRun(start: Gate, run: seq<Event>, loop: int)
    requires start.default == 0.05 && start.max == 2.0 && InBounds(start)
    requires FloodFree(run) && SuccessCount(run) >= 36
    ensures After(start, run, loop).gate.current == 0.05
  {
    ShippedDecay(start.current);
    RecoveryInAnyRun(start, run, loop);
    DecayedLess(start.current, 36, SuccessCount(run));
    hide Decayed, After;
  }

  // --------------------------------------------------------------------- back-off

  predicate AllFloods(run: seq<Event>) { forall i :: 0 <= i < |run| ==> run[i].Flooded? }

  lemma PowDouble(k: nat)
    ensures Pow(2.0, k + 1) == Pow(2.0, k) * 2.0
  {
  }

  /** k floods in a row at least double 0.2 seconds k - 1 times, up to the maximum. */
  lemma {:induction false} FloodsBackOff(start: Gate, run: seq<Event>, loop: int)
    requires run != [] && AllFloods(run)
    ensures var g := After(start, run, loop).gate;
            && g.max == start.max && Min(g.max, 0.2 * Pow(2.0, |run| - 1)) <= g.current <= g.max
            && g.floodEvents == start.floodEvents + |run|
    decreases |run|
  {
    var init := run[..|run| - 1];
    assert run[|run| - 1].Flooded?;
    if init == [] {
      assert Pow(2.0, 0) == 1.0;
    } else {
      FloodsBackOff(start, init, loop);
      PowDouble(|run| - 2);
      hide Pow;
    }
  }

  /** Five floods in a row bring the shipped gate to its maximum, from any interval. */
  lemma ShippedBackOff(start: Gate, run: seq<Event>, loop: int)
    requires start.max == 2.0 && |run| == 5 && AllFloods(run)
    ensures After(start, run, loop).gate.current == 2.0
  {
    FloodsBackOff(start, run, loop);
    assert Pow(2.0, 1) == 2.0 && Pow(2.0, 2) == 4.0 && Pow(2.0, 3) == 8.0 && Pow(2.0, 4) == 16.0;
    hide After;
  }

  // --------------------------------------------------------------------- spacing

  /** The interval that a pass reserves: the one in force when it happens. */
  function Reserved(start: Gate, run: seq<Event>, loop: int, i: nat): real
    requires i < |run|
  {
    After(start, run[..i], loop).gate.current
  }

  predicate NoPassWithin(run: seq<Event>, i: nat, j: nat)
    requires j <= |run|
  {
    forall k :: i < k < j ==> !run[k].Passed?
  }

  /** Neither the gate nor a sleeper goes before the slot. */
  predicate SlotKept(w: World, slot: real) { w.gate.nextAt >= slot && (w.wakes.Some? ==> w.wakes.value >= slot) }

  lemma SlotStep(w: World, e: Event, loop: int, slot: real)
    requires SlotKept(w, slot) && !e.Passed?
    ensures SlotKept(Next(w, e, loop), slot)
  {
  }

  lemma SlotStart(w: World, at: real, loop: int)
    ensures SlotKept(Next(w, Passed(at), loop), at + w.gate.current)
  {
  }

  lemma AfterLast(start: Gate, run: seq<Event>, loop: int)
    requires run != []
    ensures After(start, run, loop) == Next(After(start, run[..|run| - 1], loop), run[|run| - 1], loop)
  {
  }

  lemma {:induction false} NextAtHolds(start: Gate, run: seq<Event>, loop: int, i: nat)
    requires i < |run| && run[i].Passed? && NoPassWithin(run, i, |run|)
    ensures SlotKept(After(start, run, loop), run[i].at + Reserved(start, run, loop, i))
    decreases |run|
  {
    var n := |run| - 1;
    var init := run[..n];
    AfterLast(start, run, loop);
    hide After, Next, SlotKept;
    if i < n {
      assert init[..i] == run[..i] && !run[n].Passed?;
      NextAtHolds(start, init, loop, i);
      SlotStep(After(start, init, loop), run[n], loop, run[i].at + Reserved(start, run, loop, i));
    } else {
      SlotStart(After(start, init, loop), run[i].at, loop);
    }
  }

  /** Successive passes of one caller are at least the earlier pass's interval apart. */
  lemma SpacedPasses(start: Gate, run: seq<Event>, loop: int, i: nat, j: nat)
    requires Sequential(start, run, loop) && i < j < |run|
    requires run[i].Passed? && run[j].Passed? && NoPassWithin(run, i, j)
    ensures run[j].at >= run[i].at + Reserved(start, run, loop, i)
  {
    assert run[..j][..i] == run[..i];
    assert Possible(After(start, run[..j], loop), run[j]);
    hide Sequential;
    NextAtHolds(start, run[..j], loop, i);
    hide After;
  }

  /** Nothing made the gate forget its schedule since event f. */
  predicate Remembered(start: Gate, run: seq<Event>, loop: int, f: nat, b: nat)
    requires f < b <= |run|
  {
    After(start, run[..f], loop).gate.owner == Some(loop) || NoPassWithin(run, f, b)
  }

  lemma {:induction false} CooldownHolds(start: Gate, run: seq<Event>, loop: int, f: nat)
    requires f < |run| && run[f].Flooded? && Remembered(start, run, loop, f, |run|)
    ensures var g := After(start, run, loop).gate;
            && g.cooldownUntil >= run[f].at + WaitFor(run[f].seconds)
            && (After(start, run[..f], loop).gate.owner == Some(loop) ==> g.owner == Some(loop))
    decreases |run|
  {
    var init := run[..|run| - 1];
    if f < |init| {
      assert init[..f] == run[..f];
      CooldownHolds(start, init, loop, f);
      assert run[|init|].Passed? ==> After(start, run[..f], loop).gate.owner == Some(loop);
    }
  }

  lemma AsleepStep(w: World, e: Event, loop: int)
    requires w.wakes.Some? && Possible(w, e) && !e.Passed?
    ensures Next(w, e, loop).wakes == w.wakes
  {
  }

  lemma AsleepStart(w: World, e: Event, loop: int)
    requires e.Began?
    ensures Next(w, e, loop).wakes == Some(Max(e.at, Target(w.gate)))
  {
  }

  lemma LastPossible(start: Gate, run: seq<Event>, loop: int)
    requires Sequential(start, run, loop) && run != []
    ensures Sequential(start, run[..|run| - 1], loop) && Possible(After(start, run[..|run| - 1], loop), run[|run| - 1])
  {
    Prefix(start, run, loop, |run| - 1);
    hide After, Possible;
  }

  /** The caller sleeps until the time it chose at b. */
  ghost predicate Asleep(start: Gate, run: seq<Event>, loop: int, b: nat, wakes: real)
    requires b < |run|
  {
    run[b].Began? && NoPassWithin(run, b, |run|) && wakes == Max(run[b].at, Target(After(start, run[..b], loop).gate))
  }

  lemma AsleepBefore(start: Gate, run: seq<Event>, loop: int, b: nat, wakes: real)
    requires b < |run| - 1 && Asleep(start, run, loop, b, wakes)
    ensures Asleep(start, run[..|run| - 1], loop, b, wakes) && !run[|run| - 1].Passed?
  {
    hide After, Max, Target;
    assert run[..|run| - 1][..b] == run[..b];
  }

  lemma {:induction false} WakeKept(start: Gate, run: seq<Event>, loop: int, b: nat, wakes: real)
    requires Sequential(start, run, loop) && b < |run| && Asleep(start, run, loop, b, wakes)
    ensures After(start, run, loop).wakes == Some(wakes)
    decreases |run|
  {
    hide *;
    if b < |run| - 1 {
      AsleepBefore(start, run, loop, b, wakes);
      LastPossible(start, run, loop);
      WakeKept(start, run[..|run| - 1], loop, b, wakes);
      AfterLast(start, run, loop);
      AsleepStep(After(start, run[..|run| - 1], loop), run[|run| - 1], loop);
    } else {
      FallsAsleep(start, run, loop, wakes);
    }
  }

  lemma FallsAsleep(start: Gate, run: seq<Event>, loop: int, wakes: real)
    requires run != [] && Asleep(start, run, loop, |run| - 1, wakes)
    ensures After(start, run, loop).wakes == Some(wakes)
  {
    AfterLast(start, run, loop);
    AsleepStart(After(start, run[..|run| - 1], loop), run[|run| - 1], loop);
    hide After, Next, Max, Target;
  }

  /** A pass never comes before its wait began, nor before what the gate said then. */
  lemma PassNotBefore(start: Gate, run: seq<Event>, loop: int, b: nat, p: nat)
    requires Sequential(start, run, loop) && b < p < |run| && run[b].Began? && run[p].Passed? && NoPassWithin(run, b, p)
    ensures run[p].at >= Max(run[b].at, Target(After(start, run[..b], loop).gate))
  {
    var wakes := Max(run[b].at, Target(After(start, run[..b], loop).gate));
    Prefix(start, run, loop, p);
    assert run[..p][..b] == run[..b] && run[..p][b] == run[b];
    assert Asleep(start, run[..p], loop, b, wakes);
    assert Possible(After(start, run[..p], loop), run[p]);
    hide Sequential, After, Max, Target, Asleep;
    WakeKept(start, run[..p], loop, b, wakes);
  }

  /**
   A wait never passes inside a cooldown noted before it began, provided that the gate already
   belonged to the loop when the cooldown was noted, or that no pass came in between.
   */
  lemma CooldownRespected(start: Gate, run: seq<Event>, loop: int, f: nat, b: nat, p: nat)
    requires Sequential(start, run, loop) && f < b < p < |run|
    requires run[f].Flooded? && run[b].Began? && run[p].Passed? && NoPassWithin(run, b, p)
    requires Remembered(start, run, loop, f, b)
    ensures run[p].at >= run[f].at + WaitFor(run[f].seconds)
  {
    assert run[..b][..f] == run[..f];
    CooldownHolds(start, run[..b], loop, f);
    PassNotBefore(start, run, loop, b, p);
  }

  lemma Extend(start: Gate, run: seq<Event>, loop: int, e: Event)
    requires Sequential(start, run, loop) && Possible(After(start, run, loop), e)
    requires forall i :: 0 <= i < |run| ==> run[i].at <= e.at
    ensures Sequential(start, run + [e], loop)
  {
    var next := run + [e];
    forall i | 0 <= i < |next| ensures Possible(After(start, next[..i], loop), next[i]) {
      assert next[..i] == run[..i];
      if i == |run| { assert run[..i] == run; }
    }
  }

  /**
   Whether a wait that has just begun can pass inside an earlier cooldown is decided by what
   the gate says when it begins: every possible pass obeys the cooldown exactly if that does.
   */
  lemma CooldownKeptExactly(start: Gate, run: seq<Event>, loop: int, f: nat, b: nat)
    requires Sequential(start, run, loop) && f < b && |run| == b + 1 && run[f].Flooded? && run[b].Began?
    ensures var until := run[f].at + WaitFor(run[f].seconds);
            (forall at :: Sequential(start, run + [Passed(at)], loop) ==> at >= until)
            <==> Max(run[b].at, Target(After(start, run[..b], loop).gate)) >= until
  {
    var until, wakes := run[f].at + WaitFor(run[f].seconds), Max(run[b].at, Target(After(start, run[..b], loop).gate));
    WaitCanEnd(start, run, loop, b, wakes);
    hide *;
    forall at | Sequential(start, run + [Passed(at)], loop) ensures at >= wakes { PassAfter(start, run, loop, b, at); }
    assert (forall at :: Sequential(start, run + [Passed(at)], loop) ==> at >= until) ==> wakes >= until;
  }

  lemma PassAfter(start: Gate, run: seq<Event>, loop: int, b: nat, at: real)
    requires |run| == b + 1 && run[b].Began? && Sequential(start, run + [Passed(at)], loop)
    ensures at >= Max(run[b].at, Target(After(start, run[..b], loop).gate))
  {
    hide Sequential, After, Max, Target;
    var next := run + [Passed(at)];
    assert next[..b] == run[..b] && next[b] == run[b];
    PassNotBefore(start, next, loop, b, b + 1);
  }

  lemma WaitCanEnd(start: Gate, run: seq<Event>, loop: int, b: nat, wakes: real)
    requires Sequential(start, run, loop) && |run| == b + 1 && run[b].Began?
    requires wakes == Max(run[b].at, Target(After(start, run[..b], loop).gate))
    ensures Sequential(start, run + [Passed(wakes)], loop)
  {
    assert Asleep(start, run, loop, b, wakes);
    assert forall i :: 0 <= i < |run| ==> run[i].at <= run[b].at <= wakes;
    hide Sequential, After, Max, Target, Possible, Asleep;
    WakeKept(start, run, loop, b, wakes);
    PossibleWhenAwake(After(start, run, loop), wakes);
    Extend(start, run, loop, Passed(wakes));
  }

  lemma PossibleWhenAwake(w: World, wakes: real)
    requires w.wakes == Some(wakes)
    ensures Possible(w, Passed(wakes))
  {
  }

  /** No flood is noted between two events. */
  predicate NoFloodWithin(run: seq<Event>, f: nat, b: nat)
    requires b <= |run|
  {
    forall k :: f < k < b ==> !run[k].Flooded?
  }

  /** The last pass before an event. */
  predicate LastPass(run: seq<Event>, p: nat, b: nat)
    requires b <= |run|
  {
    p < b && run[p].Passed? && NoPassWithin(run, p, b)
  }

  /** What stays of the schedule when no flood is noted: nothing but the slot of the last pass. */
  ghost predicate Forgotten(start: Gate, run: seq<Event>, loop: int, p: nat)
    requires p < |run|
  {
    var g := After(start, run, loop).gate;
    g.owner == Some(loop) && g.cooldownUntil == 0.0 && g.nextAt == run[p].at + Reserved(start, run, loop, p)
  }

  /** The pass that adopts the gate forgets every cooldown. */
  lemma AdoptingPass(g: Gate, now: real, loop: int)
    requires g.owner != Some(loop) || g.cooldownUntil == 0.0
    ensures var next := Pass(g, now, loop);
            next.owner == Some(loop) && next.cooldownUntil == 0.0 && next.nextAt == now + g.current
  {
  }

  /** Until the next flood, a gate whose cooldown a pass has dropped keeps only the last slot. */
  lemma {:induction false} FloodForgotten(start: Gate, run: seq<Event>, loop: int, f: nat, p: nat)
    requires f < p < |run| && LastPass(run, p, |run|) && NoFloodWithin(run, f, |run|)
    requires After(start, run[..f + 1], loop).gate.owner != Some(loop)
    ensures Forgotten(start, run, loop, p)
    decreases |run|
  {
    var n := |run| - 1;
    var init := run[..n];
    if p < n {
      assert init[..f + 1] == run[..f + 1] && init[..p] == run[..p];
      FloodForgotten(start, init, loop, f, p);
      assert !run[n].Passed? && !run[n].Flooded?;
    } else {
      assert init[..f + 1] == run[..f + 1];
      NothingKept(start, init, loop, f);
      AdoptingPass(After(start, init, loop).gate, run[n].at, loop);
    }
  }

  /** Between the flood and a pass the gate is either not yet adopted, or has dropped its cooldown. */
  lemma {:induction false} NothingKept(start: Gate, run: seq<Event>, loop: int, f: nat)
    requires f < |run| && NoFloodWithin(run, f, |run|) && After(start, run[..f + 1], loop).gate.owner != Some(loop)
    ensures var g := After(start, run, loop).gate; g.owner != Some(loop) || g.cooldownUntil == 0.0
    decreases |run|
  {
    var n := |run| - 1;
    if n == f {
      assert run[..f + 1] == run;
    } else {
      var init := run[..n];
      assert init[..f + 1] == run[..f + 1];
      NothingKept(start, init, loop, f);
      if run[n].Passed? { AdoptingPass(After(start, init, loop).gate, run[n].at, loop); }
      assert !run[n].Flooded?;
    }
  }

  lemma FloodKeepsOwner(start: Gate, run: seq<Event>, loop: int, f: nat)
    requires f < |run| && run[f].Flooded?
    ensures After(start, run[..f + 1], loop).gate.owner == After(start, run[..f], loop).gate.owner
  {
    assert run[..f + 1][..f] == run[..f];
  }

  /**
   A cooldown that was noted on a gate the loop did not own yet, with a pass since and no later
   flood, binds the next wait exactly if the slot of the last pass, or the wait itself, happens to.
   */
  lemma ForgottenCooldownExactly(start: Gate, run: seq<Event>, loop: int, f: nat, p: nat, b: nat)
    requires Sequential(start, run, loop) && |run| == b + 1 && f < p < b && run[f].Flooded? && run[b].Began?
    requires LastPass(run, p, b) && NoFloodWithin(run, f, b) && !Remembered(start, run, loop, f, b)
    ensures var until := run[f].at + WaitFor(run[f].seconds);
            (forall at :: Sequential(start, run + [Passed(at)], loop) ==> at >= until)
            <==> Max(run[b].at, Max(run[p].at + Reserved(start, run, loop, p), 0.0)) >= until
  {
    CooldownKeptExactly(start, run, loop, f, b);
    FloodKeepsOwner(start, run, loop, f);
    var before := run[..b];
    assert before[..f + 1] == run[..f + 1] && before[..p] == run[..p];
    assert forall k :: 0 <= k < b ==> before[k] == run[k];
    hide Sequential;
    FloodForgotten(start, before, loop, f, p);
  }

  /** The first pass on a loop drops a cooldown noted while it slept, so the next wait ignores it. */
  lemma FirstPassForgets(loop: int) returns (run: seq<Event>)
    ensures Sequential(NewGate(0.05, 2.0, 0.05), run, loop) && |run| == 6
    ensures run[2].Flooded? && run[4].Began? && run[5].Passed? && run[5].at < run[2].at + WaitFor(run[2].seconds)
  {
    var g := NewGate(0.05, 2.0, 0.05);
    run := [Flooded(1.0, Some(5.0)), Began(2.0), Flooded(3.0, Some(60.0)), Passed(6.0), Began(8.0), Passed(8.0)];
    var w0 := World(g, None);
    var w1 := Next(w0, run[0], loop);
    var w2 := Next(w1, run[1], loop);
    var w3 := Next(w2, run[2], loop);
    var w4 := Next(w3, run[3], loop);
    var w5 := Next(w4, run[4], loop);
    StepAt(g, run, loop, 0);
    StepAt(g, run, loop, 1);
    StepAt(g, run, loop, 2);
    StepAt(g, run, loop, 3);
    StepAt(g, run, loop, 4);
    assert After(g, run[..5], loop) == w5;
  }

  lemma StepAt(start: Gate, run: seq<Event>, loop: int, i: nat)
    requires i < |run|
    ensures After(start, run[..i + 1], loop) == Next(After(start, run[..i], loop), run[i], loop)
  {
    assert run[..i + 1][..i] == run[..i];
  }

  // ------------------------------------------------------------------ the pause of a flood

  /** The seconds that a flood asks for: at least one, and five if it does not say. */
  predicate Asks(seconds: Option<real>, pause: real) {
    && (seconds == None || seconds == Some(0.0) ==> pause == 5.0)
    && (seconds.Some? && seconds.value != 0.0 ==> pause >= 1.0 && pause >= seconds.value)
    && (seconds.Some? && seconds.value >= 1.0 ==> pause == seconds.value)
    && (seconds.Some? && seconds.value != 0.0 && seconds.value <= 1.0 ==> pause == 1.0)
  }

  /** After a flood the next wait passes when the pause it asks for is over, or what stood before if
      that is later; the interval becomes the largest of twice the former, a tenth of the pause, and a
      fifth of a second, or the maximum exactly if one of them reaches it. */
  lemma FloodPausesExactly(g: Gate, seconds: Option<real>, now: real, pause: real)
    requires Asks(seconds, pause)
    ensures var after := Flood(g, seconds, now);
            && Target(after) == (if now + pause >= Target(g) then now + pause else Target(g))
            && after.cooldownUntil >= now + pause && after.floodEvents == g.floodEvents + 1
            && (2.0 * g.current <= g.max ==> 2.0 * g.current <= after.current)
            && (pause / 10.0 <= g.max ==> pause / 10.0 <= after.current) && (0.2 <= g.max ==> 0.2 <= after.current)
            && (after.current in {g.max, 2.0 * g.current, pause / 10.0, 0.2})
            && (after.current == g.max <==> 2.0 * g.current >= g.max || pause / 10.0 >= g.max || 0.2 >= g.max)
            && after.current <= g.max
  {
  }
}
