/** Budget of paid search and validate calls: a fixed window restarted on demand. */
module HaisouBudget {

  const WINDOW_SECONDS := 3600.0
  const MAX_SEARCH := 40
  const MAX_VALIDATE := 60

  datatype Kind = Search | Validate

  function Max(k: Kind): nat { if k == Search then MAX_SEARCH else MAX_VALIDATE }

  datatype Counters = Counters(started: real, search: nat, validate: nat) {
    function Calls(k: Kind): nat { if k == Search then search else validate }
  }

  /** `_roll_window` with the clock at `now`; a window start of 0 counts as not started. */
  function Roll(c: Counters, now: real): Counters {
    if c.started == 0.0 || now - c.started >= WINDOW_SECONDS then Counters(now, 0, 0) else c
  }

  function Allowed(c: Counters, k: Kind): bool { c.Calls(k) < Max(k) }

  function Take(c: Counters, k: Kind): Counters {
    if !Allowed(c, k) then c
    else if k == Search then c.(search := c.search + 1)
    else c.(validate := c.validate + 1)
  }

  /** The module's globals. */
  class Budget {
    var windowStarted: real
    var searchCalls: nat
    var validateCalls: nat

    function State(): Counters
      reads this
    {
      Counters(windowStarted, searchCalls, validateCalls)
    }

    constructor ()
      ensures State() == Counters(0.0, 0, 0)
    {
      windowStarted, searchCalls, validateCalls := 0.0, 0, 0;
    }

    method RollWindow(now: real)
      modifies this
      ensures State() == Roll(old(State()), now)
    {
      if windowStarted == 0.0 || now - windowStarted >= WINDOW_SECONDS {
        windowStarted := now;
        searchCalls := 0;
        validateCalls := 0;
      }
    }

    /** The part of `acquire_haisou_search_slot` under the lock. */
    method TakeSearch() returns (ok: bool)
      modifies this
      ensures ok == Allowed(old(State()), Search) && State() == Take(old(State()), Search)
    {
      if searchCalls >= MAX_SEARCH {
        return false;
      }
      searchCalls := searchCalls + 1;
      return true;
    }

    method TakeValidate() returns (ok: bool)
      modifies this
      ensures ok == Allowed(old(State()), Validate) && State() == Take(old(State()), Validate)
    {
      if validateCalls >= MAX_VALIDATE {
        return false;
      }
      validateCalls := validateCalls + 1;
      return true;
    }

    method AcquireSearchSlot(now: real) returns (ok: bool)
      modifies this
      ensures ok == Allowed(Roll(old(State()), now), Search)
      ensures State() == Take(Roll(old(State()), now), Search)
    {
      RollWindow(now);
      ok := TakeSearch();
    }

    method AcquireValidateSlot(now: real) returns (ok: bool)
      modifies this
      ensures ok == Allowed(Roll(old(State()), now), Validate)
      ensures State() == Take(Roll(old(State()), now), Validate)
    {
      RollWindow(now);
      ok := TakeValidate();
    }

    method AllowSearch(now: real) returns (ok: bool)
      modifies this
      ensures ok == Allowed(State(), Search) && State() == Roll(old(State()), now)
    {
      RollWindow(now);
      ok := searchCalls < MAX_SEARCH;
    }
  }

  // -------------------------------------------------------- runs of many threads

  /**
   What any number of threads do to the counters. An `acquire` reads the clock, rolls and takes
   in separate critical sections, so other threads' events may come between; `reading` is what
   the clock said, `at` when the event happened.
   */
  datatype Event = Rolled(at: real, reading: real) | Taken(at: real, kind: Kind)

  function After(run: seq<Event>): Counters {
    if run == [] then Counters(0.0, 0, 0)
    else
      var c, e := After(run[..|run| - 1]), run[|run| - 1];
      if e.Rolled? then Roll(c, e.reading) else Take(c, e.kind)
  }

  /** When slots of one kind were granted. */
  function Grants(run: seq<Event>, k: Kind): seq<real> {
    if run == [] then []
    else
      var init, e := run[..|run| - 1], run[|run| - 1];
      if e.Taken? && e.kind == k && Allowed(After(init), k) then Grants(init, k) + [e.at] else Grants(init, k)
  }

  /** The run followed by one call that is not interrupted, on a clock read earlier. */
  function Acquire(run: seq<Event>, at: real, reading: real, k: Kind): seq<Event> {
    run + [Rolled(at, reading), Taken(at, k)]
  }

  /** Such a call is granted as the counters say, and recorded once. */
  lemma AcquireIsRollAndTake(run: seq<Event>, at: real, reading: real, k: Kind)
    ensures var called := Acquire(run, at, reading, k);
            && After(called) == Take(Roll(After(run), reading), k)
            && Grants(called, k) == Grants(run, k) + (if Allowed(Roll(After(run), reading), k) then [at] else [])
  {
    var called, rolled := Acquire(run, at, reading, k), run + [Rolled(at, reading)];
    assert called[..|called| - 1] == rolled && rolled[..|rolled| - 1] == run;
    assert Grants(rolled, k) == Grants(run, k);
  }

  /** Calls begin with a roll, time passes, and no roll acts on a reading older than `lag`. */
  predicate Realistic(run: seq<Event>, lag: real) {
    && (run != [] ==> run[0].Rolled?)
    && (forall i, j :: 0 <= i < j < |run| ==> run[i].at <= run[j].at)
    && (forall i :: 0 <= i < |run| && run[i].Rolled? ==> 0.0 < run[i].reading <= run[i].at <= run[i].reading + lag)
  }

  /** Grants at `from` or later and before `from + length`. */
  function Within(grants: seq<real>, from: real, length: real): nat {
    if grants == [] then 0
    else
      var last := if from <= grants[|grants| - 1] < from + length then 1 else 0;
      Within(grants[..|grants| - 1], from, length) + last
  }

  /** Where the current and the previous window begin in the grants, and when each was started. */
  datatype Windows = Windows(previous: nat, current: nat, previousAt: real, currentAt: real)

  ghost predicate Explains(w: Windows, grants: seq<real>, c: Counters, k: Kind, lag: real) {
    && w.previous <= w.current <= |grants|
    && |grants| - w.current == c.Calls(k) <= Max(k)
    && w.current - w.previous <= Max(k)
    && c.started <= w.currentAt <= c.started + lag
    && (w.previous > 0 ==> w.currentAt - w.previousAt >= WINDOW_SECONDS - lag)
    && (forall i :: 0 <= i < w.previous ==> grants[i] <= w.previousAt)
    && (forall i :: 0 <= i < w.current ==> grants[i] <= w.currentAt)
    && (forall i :: w.current <= i < |grants| ==> w.currentAt <= grants[i])
  }

  /** Everything known about a run so far: the windows, and that nothing lies in the future. */
  ghost predicate Explained(w: Windows, run: seq<Event>, k: Kind, lag: real, at: real) {
    && After(run).started > 0.0 && Explains(w, Grants(run, k), After(run), k, lag)
    && w.currentAt <= at && forall i :: 0 <= i < |Grants(run, k)| ==> Grants(run, k)[i] <= at
  }

  lemma RollExplained(w: Windows, run: seq<Event>, e: Event, k: Kind, lag: real) returns (next: Windows)
    requires Explained(w, run, k, lag, e.at)
    requires e.Rolled? && 0.0 < e.reading <= e.at <= e.reading + lag
    ensures Explained(next, run + [e], k, lag, e.at)
  {
    assert (run + [e])[..|run|] == run;
    next := if Roll(After(run), e.reading) == After(run) then w
            else Windows(w.current, |Grants(run, k)|, w.currentAt, e.at);
  }

  lemma TakeExplained(w: Windows, run: seq<Event>, e: Event, k: Kind, lag: real)
    requires Explained(w, run, k, lag, e.at) && e.Taken?
    ensures Explained(w, run + [e], k, lag, e.at)
  {
    assert (run + [e])[..|run|] == run;
  }

  lemma FirstExplained(e: Event, k: Kind, lag: real)
    requires e.Rolled? && 0.0 < e.reading <= e.at <= e.reading + lag
    ensures Explained(Windows(0, 0, 0.0, e.at), [e], k, lag, e.at)
  {
    assert [e][..0] == [];
  }

  lemma {:induction false} WindowsExplain(run: seq<Event>, k: Kind, lag: real) returns (w: Windows)
    requires run != [] && Realistic(run, lag)
    ensures Explained(w, run, k, lag, run[|run| - 1].at)
    decreases |run|
  {
    var init, e := run[..|run| - 1], run[|run| - 1];
    assert run == init + [e];
    if init == [] {
      FirstExplained(e, k, lag);
      w := Windows(0, 0, 0.0, e.at);
    } else {
      w := WindowsExplain(init, k, lag);
      LaterExplained(w, init, k, lag, init[|init| - 1].at, e.at);
      hide Explained;
      if e.Rolled? {
        w := RollExplained(w, init, e, k, lag);
      } else {
        TakeExplained(w, init, e, k, lag);
      }
    }
  }

  lemma LaterExplained(w: Windows, run: seq<Event>, k: Kind, lag: real, at: real, later: real)
    requires Explained(w, run, k, lag, at) && at <= later
    ensures Explained(w, run, k, lag, later)
  {
  }

  lemma {:induction false} WithinSuffix(grants: seq<real>, from: real, length: real, skip: nat)
    requires skip <= |grants| && forall i :: 0 <= i < skip ==> grants[i] < from
    ensures Within(grants, from, length) <= |grants| - skip
    decreases |grants|
  {
    if grants != [] {
      WithinSuffix(grants[..|grants| - 1], from, length, if skip == |grants| then skip - 1 else skip);
    }
  }

  lemma WithinLast(grants: seq<real>, at: real, from: real, length: real)
    ensures Within(grants + [at], from, length)
            == Within(grants, from, length) + if from <= at < from + length then 1 else 0
  {
    assert (grants + [at])[..|grants|] == grants;
  }

  lemma RealisticPrefix(run: seq<Event>, lag: real)
    requires Realistic(run, lag) && run != []
    ensures Realistic(run[..|run| - 1], lag)
  {
  }

  lemma GrantsLast(run: seq<Event>, k: Kind)
    requires run != []
    ensures var before := Grants(run[..|run| - 1], k);
            Grants(run, k) == before || Grants(run, k) == before + [run[|run| - 1].at]
  {
  }

  /** An interval that reaches the last event lies in the current and the previous window. */
  lemma Recent(run: seq<Event>, k: Kind, lag: real, from: real)
    requires run != [] && Realistic(run, lag) && run[|run| - 1].at < from + (WINDOW_SECONDS - lag)
    ensures Within(Grants(run, k), from, WINDOW_SECONDS - lag) <= 2 * Max(k)
  {
    var w := WindowsExplain(run, k, lag);
    hide Grants, After, Within, Realistic;
    WithinSuffix(Grants(run, k), from, WINDOW_SECONDS - lag, w.previous);
  }

  /**
   Over any run of any number of threads, a half-open interval shorter than the window by the
   worst delay between reading the clock and rolling holds at most twice the window's maximum.
   */
  lemma {:induction false} TwiceTheBudget(run: seq<Event>, k: Kind, lag: real, from: real)
    requires Realistic(run, lag)
    ensures Within(Grants(run, k), from, WINDOW_SECONDS - lag) <= 2 * Max(k)
    decreases |run|
  {
    hide *;
    if run == [] {
      NoGrants(k, from, WINDOW_SECONDS - lag);
    } else {
      var init, e := run[..|run| - 1], run[|run| - 1];
      RealisticPrefix(run, lag);
      TwiceTheBudget(init, k, lag, from);
      GrantsLast(run, k);
      if e.at < from + (WINDOW_SECONDS - lag) {
        Recent(run, k, lag, from);
      } else {
        WithinLast(Grants(init, k), e.at, from, WINDOW_SECONDS - lag);
      }
    }
  }

  lemma NoGrants(k: Kind, from: real, length: real)
    ensures Within(Grants([], k), from, length) == 0
  {
  }

  /** When every roll acts at once, the interval is the whole window. */
  lemma TwiceTheBudgetAtomic(run: seq<Event>, k: Kind, from: real)
    requires Realistic(run, 0.0)
    ensures Within(Grants(run, k), from, WINDOW_SECONDS) <= 2 * Max(k)
  {
    TwiceTheBudget(run, k, 0.0, from);
  }

  // --------------------------------------------------- exactly how far it goes

  /** Every realistic run keeps to twice the maximum in every interval of this length. */
  ghost predicate Bounded(k: Kind, lag: real, length: real) {
    forall run, from :: Realistic(run, lag) ==> Within(Grants(run, k), from, length) <= 2 * Max(k)
  }

  /** Runs in which no call is ever interrupted; only its reading of the clock may be old. */
  predicate WholeCalls(run: seq<Event>)
    decreases |run|
  {
    run == []
    || (|run| >= 2 && run[|run| - 2].Rolled? && run[|run| - 1].Taken? && run[|run| - 2].at == run[|run| - 1].at
        && WholeCalls(run[..|run| - 2]))
  }

  /** n calls at one moment, on one reading. */
  function Burst(run: seq<Event>, at: real, reading: real, k: Kind, n: nat): seq<Event> {
    if n == 0 then run else Acquire(Burst(run, at, reading, k, n - 1), at, reading, k)
  }

  function Repeated(grants: seq<real>, at: real, n: nat): seq<real> {
    if n == 0 then grants else Repeated(grants, at, n - 1) + [at]
  }

  /** The run is realistic, of whole calls, and over by `at`. */
  predicate Over(run: seq<Event>, lag: real, at: real) {
    Realistic(run, lag) && WholeCalls(run) && forall i :: 0 <= i < |run| ==> run[i].at <= at
  }

  lemma OneMore(run: seq<Event>, e: Event, lag: real, at: real)
    requires Realistic(run, lag) && (forall i :: 0 <= i < |run| ==> run[i].at <= at) && at <= e.at
    requires (run == [] ==> e.Rolled?) && (e.Rolled? ==> 0.0 < e.reading <= e.at <= e.reading + lag)
    ensures Realistic(run + [e], lag) && forall i :: 0 <= i < |run + [e]| ==> (run + [e])[i].at <= e.at
  {
  }

  lemma AcquireWhole(run: seq<Event>, at: real, reading: real, k: Kind)
    requires WholeCalls(run)
    ensures WholeCalls(Acquire(run, at, reading, k))
  {
    var next := Acquire(run, at, reading, k);
    assert next[..|next| - 2] == run;
  }

  lemma AcquireOver(run: seq<Event>, before: real, at: real, reading: real, k: Kind, lag: real)
    requires Over(run, lag, before) && before <= at && 0.0 < reading <= at <= reading + lag
    ensures Over(Acquire(run, at, reading, k), lag, at)
  {
    AcquireWhole(run, at, reading, k);
    hide Realistic, WholeCalls;
    OneMore(run, Rolled(at, reading), lag, before);
    OneMore(run + [Rolled(at, reading)], Taken(at, k), lag, at);
    assert run + [Rolled(at, reading)] + [Taken(at, k)] == Acquire(run, at, reading, k);
  }

  lemma {:induction false} BurstOver(run: seq<Event>, before: real, at: real, reading: real, k: Kind, n: nat, lag: real)
    requires Over(run, lag, before) && before <= at && 0.0 < reading <= at <= reading + lag
    ensures Over(Burst(run, at, reading, k, n), lag, at)
  {
    if n > 0 {
      BurstOver(run, before, at, reading, k, n - 1, lag);
      hide Realistic, WholeCalls, Acquire;
      AcquireOver(Burst(run, at, reading, k, n - 1), at, at, reading, k, lag);
    } else {
      hide Realistic, WholeCalls, Acquire;
    }
  }

  /** A window with no calls yet grants a whole burst. */
  predicate Opens(c: Counters, reading: real, k: Kind) {
    var next := Roll(c, reading);
    next.started > 0.0 && reading - next.started < WINDOW_SECONDS && next.Calls(k) == 0
  }

  lemma TakeInWindow(c: Counters, reading: real, k: Kind)
    requires c.started > 0.0 && reading - c.started < WINDOW_SECONDS && c.Calls(k) < Max(k)
    ensures Roll(c, reading) == c && Allowed(c, k)
    ensures Take(c, k).started == c.started && Take(c, k).Calls(k) == c.Calls(k) + 1
  {
  }

  lemma {:induction false} BurstGrants(run: seq<Event>, at: real, reading: real, k: Kind, n: nat)
    requires Opens(After(run), reading, k) && n <= Max(k)
    ensures var next := Burst(run, at, reading, k, n);
            && Grants(next, k) == Repeated(Grants(run, k), at, n)
            && (n > 0 ==> After(next).started == Roll(After(run), reading).started && After(next).Calls(k) == n)
  {
    if n > 0 {
      BurstGrants(run, at, reading, k, n - 1);
      var before := Burst(run, at, reading, k, n - 1);
      AcquireIsRollAndTake(before, at, reading, k);
      TakeInWindow(if n > 1 then After(before) else Roll(After(run), reading), reading, k);
      hide After, Grants, Roll, Take, Acquire;
    }
  }

  lemma {:induction false} WithinRepeated(grants: seq<real>, at: real, n: nat, from: real, length: real)
    requires from <= at < from + length
    ensures Within(Repeated(grants, at, n), from, length) == Within(grants, from, length) + n
  {
    if n > 0 {
      WithinRepeated(grants, at, n - 1, from, length);
      hide Within;
      WithinLast(Repeated(grants, at, n - 1), at, from, length);
    }
  }

  function Other(k: Kind): Kind { if k == Search then Validate else Search }

  /** A call of the other kind opens the first window at 1; then bursts on readings just before
      its end, at its end, and at the end of the next window, the first two acted on late. */
  function OneBurst(k: Kind, lag: real, early: real): seq<Event> {
    Burst(Opening(k), 3601.0 - early + lag, 3601.0 - early, k, Max(k))
  }

  function TwoBursts(k: Kind, lag: real, early: real): seq<Event> {
    Burst(OneBurst(k, lag, early), 3601.0 + lag, 3601.0, k, Max(k))
  }

  function ThreeBursts(k: Kind, lag: real, early: real): seq<Event> {
    Burst(TwoBursts(k, lag, early), 7201.0, 7201.0, k, Max(k))
  }

  function Opening(k: Kind): seq<Event> { Acquire([], 1.0, 1.0, Other(k)) }

  lemma OpeningOver(k: Kind, lag: real)
    requires 0.0 <= lag
    ensures Over(Opening(k), lag, 1.0)
  {
    AcquireOver([], 1.0, 1.0, 1.0, Other(k), lag);
  }

  lemma OpeningGrants(k: Kind)
    ensures After(Opening(k)).started == 1.0 && After(Opening(k)).Calls(k) == 0 && Grants(Opening(k), k) == []
  {
    AcquireIsRollAndTake([], 1.0, 1.0, Other(k));
    var run, rolled := Opening(k), [Rolled(1.0, 1.0)];
    assert run[..1] == rolled && rolled[..0] == [];
  }

  lemma BurstsAre(k: Kind, lag: real, early: real)
    ensures OneBurst(k, lag, early) == Burst(Opening(k), 3601.0 - early + lag, 3601.0 - early, k, Max(k))
    ensures TwoBursts(k, lag, early) == Burst(OneBurst(k, lag, early), 3601.0 + lag, 3601.0, k, Max(k))
    ensures ThreeBursts(k, lag, early) == Burst(TwoBursts(k, lag, early), 7201.0, 7201.0, k, Max(k))
  {
    hide Burst;
  }

  lemma BurstsOver(k: Kind, lag: real, early: real)
    requires 0.0 <= lag <= WINDOW_SECONDS && 0.0 < early <= 1.0
    ensures Over(TwoBursts(k, lag, early), lag, 3601.0 + lag) && Over(ThreeBursts(k, lag, early), lag, 7201.0)
  {
    hide Over, Burst, Opening, OneBurst, TwoBursts, ThreeBursts, Max;
    OpeningOver(k, lag);
    BurstsAre(k, lag, early);
    BurstOver(Opening(k), 1.0, 3601.0 - early + lag, 3601.0 - early, k, Max(k), lag);
    BurstOver(OneBurst(k, lag, early), 3601.0 - early + lag, 3601.0 + lag, 3601.0, k, Max(k), lag);
    BurstOver(TwoBursts(k, lag, early), 3601.0 + lag, 7201.0, 7201.0, k, Max(k), lag);
  }

  lemma OneBurstGrants(k: Kind, lag: real, early: real)
    requires 0.0 < early <= 1.0
    ensures Grants(OneBurst(k, lag, early), k) == Repeated([], 3601.0 - early + lag, Max(k))
    ensures After(OneBurst(k, lag, early)).started == 1.0
  {
    OpeningGrants(k);
    BurstGrants(Opening(k), 3601.0 - early + lag, 3601.0 - early, k, Max(k));
    hide After, Grants, Burst, Opening, Repeated;
  }

  lemma TwoBurstsGrants(k: Kind, lag: real, early: real)
    requires 0.0 < early <= 1.0
    ensures Grants(TwoBursts(k, lag, early), k) == Repeated(Grants(OneBurst(k, lag, early), k), 3601.0 + lag, Max(k))
    ensures After(TwoBursts(k, lag, early)).started == 3601.0
  {
    OneBurstGrants(k, lag, early);
    hide After, Grants, Burst, Repeated, OneBurst;
    BurstGrants(OneBurst(k, lag, early), 3601.0 + lag, 3601.0, k, Max(k));
  }

  lemma ThreeBurstsGrants(k: Kind, lag: real, early: real)
    requires 0.0 < early <= 1.0
    ensures Grants(ThreeBursts(k, lag, early), k) == Repeated(Grants(TwoBursts(k, lag, early), k), 7201.0, Max(k))
  {
    TwoBurstsGrants(k, lag, early);
    hide After, Grants, Burst, TwoBursts, Repeated;
    BurstGrants(TwoBursts(k, lag, early), 7201.0, 7201.0, k, Max(k));
  }

  lemma WithinNone(from: real, length: real)
    ensures Within([], from, length) == 0
  {
  }

  lemma TwoBurstsWithin(k: Kind, lag: real, early: real, length: real)
    requires 0.0 < early <= 1.0 && early < length
    ensures Within(Grants(TwoBursts(k, lag, early), k), 3601.0 - early + lag, length) == 2 * Max(k)
  {
    var from := 3601.0 - early + lag;
    OneBurstGrants(k, lag, early);
    TwoBurstsGrants(k, lag, early);
    WithinNone(from, length);
    hide *;
    WithinRepeated([], from, Max(k), from, length);
    WithinRepeated(Grants(OneBurst(k, lag, early), k), 3601.0 + lag, Max(k), from, length);
  }

  lemma ThreeBurstsWithin(k: Kind, lag: real, early: real, length: real)
    requires 0.0 < early <= 1.0 && 0.0 <= lag <= 3600.0 && 3600.0 - lag + early < length
    ensures Within(Grants(ThreeBursts(k, lag, early), k), 3601.0 - early + lag, length) == 3 * Max(k)
  {
    var from := 3601.0 - early + lag;
    hide *;
    TwoBurstsWithin(k, lag, early, length);
    ThreeBurstsGrants(k, lag, early);
    WithinRepeated(Grants(TwoBursts(k, lag, early), k), 7201.0, Max(k), from, length);
  }

  lemma BurstsRealistic(k: Kind, lag: real, early: real)
    requires 0.0 <= lag <= 3600.0 && 0.0 < early <= 1.0
    ensures Realistic(TwoBursts(k, lag, early), lag) && WholeCalls(TwoBursts(k, lag, early))
    ensures Realistic(ThreeBursts(k, lag, early), lag) && WholeCalls(ThreeBursts(k, lag, early))
  {
    BurstsOver(k, lag, early);
    hide Realistic, WholeCalls, TwoBursts, ThreeBursts;
  }

  /** Something positive, at most 1, below a positive number. */
  lemma Below(x: real) returns (e: real)
    requires x > 0.0
    ensures 0.0 < e <= 1.0 && e < x
  {
    e := if x <= 1.0 then x / 2.0 else 0.5;
  }

  /** Twice the maximum does happen within any time, even when every reading is acted on at once. */
  lemma TwiceIsReached(k: Kind, early: real, length: real)
    requires 0.0 < early <= 1.0 && early < length
    ensures Realistic(TwoBursts(k, 0.0, early), 0.0) && WholeCalls(TwoBursts(k, 0.0, early))
    ensures Within(Grants(TwoBursts(k, 0.0, early), k), 3601.0 - early + 0.0, length) == 2 * Max(k)
  {
    hide *;
    BurstsRealistic(k, 0.0, early);
    TwoBurstsWithin(k, 0.0, early, length);
  }

  /** Three times the maximum happens in every interval longer than the window less the lag. */
  lemma ThriceIsReached(k: Kind, lag: real, early: real, length: real)
    requires 0.0 <= lag <= 3600.0 && 0.0 < early <= 1.0 && 3600.0 - lag + early < length
    ensures Realistic(ThreeBursts(k, lag, early), lag) && WholeCalls(ThreeBursts(k, lag, early))
    ensures Within(Grants(ThreeBursts(k, lag, early), k), 3601.0 - early + lag, length) == 3 * Max(k)
  {
    hide *;
    BurstsRealistic(k, lag, early);
    ThreeBurstsWithin(k, lag, early, length);
  }

  lemma {:induction false} WithinLonger(grants: seq<real>, from: real, length: real, longer: real)
    requires length <= longer
    ensures Within(grants, from, length) <= Within(grants, from, longer)
            && (length <= 0.0 ==> Within(grants, from, length) == 0)
    decreases |grants|
  {
    if grants != [] { WithinLonger(grants[..|grants| - 1], from, length, longer); }
  }

  lemma MoreLag(run: seq<Event>, lag: real, more: real)
    requires Realistic(run, lag) && lag <= more
    ensures Realistic(run, more)
  {
  }

  lemma Exceeded(k: Kind, known: real, lag: real, length: real)
    requires 0.0 <= known <= 3600.0 && known <= lag && 3600.0 - known < length
    ensures !Bounded(k, lag, length)
  {
    hide Grants, Within, Realistic, ThreeBursts;
    var early := Below(length - (3600.0 - known));
    ThriceIsReached(k, known, early, length);
    MoreLag(ThreeBursts(k, known, early), known, lag);
    assert Within(Grants(ThreeBursts(k, known, early), k), 3601.0 - early + known, length) > 2 * Max(k);
  }

  /** The interval lengths for which twice the maximum is a bound: up to the window less the lag, and no longer. */
  lemma BoundedExactly(k: Kind, lag: real, length: real)
    requires 0.0 <= lag
    ensures Bounded(k, lag, length) <==> length <= Max0(WINDOW_SECONDS - lag)
  {
    hide Grants, Within, Realistic;
    if length <= Max0(WINDOW_SECONDS - lag) {
      forall run, from | Realistic(run, lag) ensures Within(Grants(run, k), from, length) <= 2 * Max(k) {
        TwiceTheBudget(run, k, lag, from);
        WithinLonger(Grants(run, k), from, length, Max0(WINDOW_SECONDS - lag));
      }
    } else {
      var known := if lag <= 3600.0 then lag else 3600.0;
      Exceeded(k, known, lag, length);
    }
  }

  function Max0(x: real): real { if x >= 0.0 then x else 0.0 }

  /** The whole window is such a length exactly when every reading is acted on at once. */
  lemma FullWindowExactly(k: Kind, lag: real)
    requires 0.0 <= lag
    ensures Bounded(k, lag, WINDOW_SECONDS) <==> lag == 0.0
  {
    BoundedExactly(k, lag, WINDOW_SECONDS);
  }

  // ------------------------------------------------------------- a clock at zero

  function ZeroCalls(n: nat, k: Kind): seq<Event> { Burst([], 0.0, 0.0, k, n) }

  /** A roll at 0 forgets the calls of a window that started at 0, so the next take is granted. */
  lemma ZeroCall(init: seq<Event>, k: Kind)
    requires After(init).started == 0.0
    ensures var run := Acquire(init, 0.0, 0.0, k);
            Grants(run, k) == Grants(init, k) + [0.0] && After(run).started == 0.0
  {
    AcquireIsRollAndTake(init, 0.0, 0.0, k);
  }

  /** A clock that reads 0 is taken for no window at all: each call resets the count, all are granted. */
  lemma {:induction false} ZeroClockUnbounded(n: nat, k: Kind)
    ensures Within(Grants(ZeroCalls(n, k), k), 0.0, 3600.0) == n && After(ZeroCalls(n, k)).started == 0.0
  {
    ZeroCallsNext(n, k);
    hide *;
    if n > 0 {
      ZeroClockUnbounded(n - 1, k);
      ZeroCall(ZeroCalls(n - 1, k), k);
      WithinLast(Grants(ZeroCalls(n - 1, k), k), 0.0, 0.0, 3600.0);
    }
  }

  lemma ZeroCallsNext(n: nat, k: Kind)
    ensures n > 0 ==> ZeroCalls(n, k) == Acquire(ZeroCalls(n - 1, k), 0.0, 0.0, k)
    ensures Within(Grants(ZeroCalls(0, k), k), 0.0, 3600.0) == 0 && After(ZeroCalls(0, k)).started == 0.0
  {
  }

  /** With the shipped limits, an hour has at most 80 searches and 120 validations, if readings of the
      clock are acted on at once. */
  lemma ShippedBudget(run: seq<Event>, from: real)
    requires Realistic(run, 0.0)
    ensures Within(Grants(run, Search), from, 3600.0) <= 80 && Within(Grants(run, Validate), from, 3600.0) <= 120
  {
    TwiceTheBudgetAtomic(run, Search, from);
    TwiceTheBudgetAtomic(run, Validate, from);
  }

  /** And it can have as many. */
  lemma ShippedBudgetReached(early: real)
    requires 0.0 < early <= 1.0
    ensures var run := TwoBursts(Search, 0.0, early);
            Realistic(run, 0.0) && Within(Grants(run, Search), 3601.0 - early + 0.0, 3600.0) == 80
    ensures var run := TwoBursts(Validate, 0.0, early);
            Realistic(run, 0.0) && Within(Grants(run, Validate), 3601.0 - early + 0.0, 3600.0) == 120
  {
    assert Max(Search) == 40 && Max(Validate) == 60;
    hide *;
    TwiceIsReached(Search, early, 3600.0);
    TwiceIsReached(Validate, early, 3600.0);
  }
}
