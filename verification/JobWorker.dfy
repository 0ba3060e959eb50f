/** Workers over the job table: who executes what, and how a worker empties the queue. */
module JobWorker {
  import opened JobQueue
  import opened PyText

  const TG_KINDS := ["subscription_search", "subscription_search_all"]
  const NON_TG_KINDS := ["emby_subscription_sync", "retry_failed_resources"]
  const SUPPORTED_KINDS := ["subscription_search", "subscription_search_all", "emby_subscription_sync",
    "retry_failed_resources"]

  /** A worker polls, or holds a first job and is about to look for a sidecar, or executes the
      jobs it gathered until the last of them ends. */
  datatype Worker = Idle | First(job: int) | Executing(jobs: set<int>) {
    function Holds(): set<int> {
      match this
      case Idle => {}
      case First(j) => {j}
      case Executing(js) => js
    }
  }

  datatype State = State(q: Queue, workers: map<int, Worker>)

  datatype Action =
    | Enqueue(kind: string, now: int)
    | Poll(w: int, name: string, now: int)
    | Sidecar(w: int, name: string, now: int)
    | Beat(w: int, job: int, name: string, now: int)
    | Finish(w: int, job: int, error: Option<string>, now: int)
    | Sweep(maxAge: int, now: int)
    | Supersede(job: int, message: string, now: int)

  predicate Enabled(s: State, a: Action) {
    match a
    case Enqueue(_, _) => true
    case Poll(w, _, _) => w in s.workers && s.workers[w].Idle?
    case Sidecar(w, _, _) => w in s.workers && s.workers[w].First?
    case Beat(w, j, _, _) => w in s.workers && j in s.workers[w].Holds()
    case Finish(w, j, _, _) => w in s.workers && s.workers[w].Executing? && j in s.workers[w].jobs
    case Sweep(_, _) => true
    case Supersede(_, _, _) => true
  }

  predicate IsTg(q: Queue, id: int) { id in q.jobs && q.jobs[id].kind in TG_KINDS }

  /** What the worker does with the job `claim_next_job` gave it. */
  function AfterPoll(q: Queue, claimed: Option<int>): Worker {
    match claimed
    case None => Idle
    case Some(j) => if IsTg(q, j) then Executing({j}) else First(j)
  }

  function AfterSidecar(first: int, claimed: Option<int>): Worker {
    match claimed
    case None => Executing({first})
    case Some(extra) => if extra == first then Executing({first}) else Executing({first, extra})
  }

  function AfterFinish(w: Worker, job: int): Worker
    requires w.Executing?
  {
    if w.jobs - {job} == {} then Idle else Executing(w.jobs - {job})
  }

  function Step(s: State, a: Action): State
    requires Enabled(s, a)
  {
    match a
    case Enqueue(kind, now) => s.(q := Created(s.q, kind, now))
    case Poll(w, name, now) =>
      State(AfterClaim(s.q, SUPPORTED_KINDS, name, now),
            s.workers[w := AfterPoll(s.q, Claimed(s.q, SUPPORTED_KINDS))])
    case Sidecar(w, name, now) =>
      State(AfterClaim(s.q, NON_TG_KINDS, name, now),
            s.workers[w := AfterSidecar(s.workers[w].job, Claimed(s.q, NON_TG_KINDS))])
    case Beat(w, j, name, now) => s.(q := Touched(s.q, j, name, now))
    case Finish(w, j, error, now) =>
      State(Marked(s.q, j, error, now), s.workers[w := AfterFinish(s.workers[w], j)])
    case Sweep(maxAge, now) => s.(q := Requeued(s.q, maxAge, now))
    case Supersede(j, error, now) => s.(q := Marked(s.q, j, Some(error), now))
  }

  predicate ValidRun(s: State, run: seq<Action>)
    decreases |run|
  {
    run == [] || (Enabled(s, run[0]) && ValidRun(Step(s, run[0]), run[1..]))
  }

  function Exec(s: State, run: seq<Action>): State
    requires ValidRun(s, run)
    decreases |run|
  {
    if run == [] then s else Exec(Step(s, run[0]), run[1..])
  }

  /** Every state the run passes through has the property. */
  ghost predicate Always(p: State -> bool, s: State, run: seq<Action>)
    requires ValidRun(s, run)
    decreases |run|
  {
    p(s) && (run != [] ==> Always(p, Step(s, run[0]), run[1..]))
  }

  /** Every step of the run has the property where it is taken. */
  ghost predicate AllSteps(p: (State, Action) -> bool, s: State, run: seq<Action>)
    requires ValidRun(s, run)
    decreases |run|
  {
    run != [] ==> p(s, run[0]) && AllSteps(p, Step(s, run[0]), run[1..])
  }

  ghost predicate Held(s: State, j: int) { exists w :: w in s.workers && j in s.workers[w].Holds() }

  /** A sweep finds no job stale that a worker holds: the heartbeats are fresh. */
  ghost predicate Fresh(s: State, a: Action) {
    a.Sweep? ==> forall j :: Held(s, j) && j in s.q.jobs ==> !Stale(s.q.jobs[j], a.maxAge, a.now)
  }

  /** A job that is marked as failed from outside is held by no worker. */
  ghost predicate Spares(s: State, a: Action) { a.Supersede? ==> !(Held(s, a.job) && a.job in s.q.jobs) }

  predicate Initial(s: State) { WellFormed(s.q) && forall w :: w in s.workers ==> s.workers[w].Idle? }

  // ------------------------------------------------------------ invariants

  /** A held job is not waiting, and nobody else holds it. */
  ghost predicate SingleHolder(s: State) {
    && (forall w, j :: w in s.workers && j in s.workers[w].Holds() ==> j in s.q.jobs && s.q.jobs[j].status != Queued)
    && (forall w, v, j :: w in s.workers && v in s.workers && j in s.workers[w].Holds() && j in s.workers[v].Holds() ==>
                            w == v)
  }

  /** A held job is running. */
  ghost predicate HeldRunning(s: State) {
    forall w, j :: w in s.workers && j in s.workers[w].Holds() ==> j in s.q.jobs && s.q.jobs[j].status == Running
  }

  ghost predicate Inv(s: State) { WellFormed(s.q) && SingleHolder(s) }

  /** Updating the table under workers that stay as they are. */
  lemma TableKeeps(s: State, r: Queue)
    requires Inv(s) && WellFormed(r) && s.q.jobs.Keys <= r.jobs.Keys
    requires forall w, j :: w in s.workers && j in s.workers[w].Holds() && j in s.q.jobs && s.q.jobs[j].status != Queued
               ==> r.jobs[j].status != Queued
    ensures Inv(s.(q := r))
  {
  }

  /** One worker changes its jobs; the others' jobs stay as they are. */
  lemma WorkerKeeps(s: State, w: int, r: Queue, x: Worker)
    requires Inv(s) && w in s.workers && WellFormed(r) && r.jobs.Keys == s.q.jobs.Keys
    requires forall v, j :: v in s.workers && v != w && j in s.workers[v].Holds() && j in s.q.jobs
               ==> r.jobs[j] == s.q.jobs[j]
    requires forall j :: j in x.Holds() ==> j in r.jobs && r.jobs[j].status != Queued
    requires forall v, j :: v in s.workers && v != w && j in s.workers[v].Holds() ==> j !in x.Holds()
    ensures Inv(State(r, s.workers[w := x]))
  {
  }

  lemma PollKeeps(s: State, w: int, name: string, now: int)
    requires Inv(s) && Enabled(s, Poll(w, name, now))
    ensures Inv(Step(s, Poll(w, name, now)))
  {
    var c := Claimed(s.q, SUPPORTED_KINDS);
    hide Claimed;
    WorkerKeeps(s, w, AfterClaim(s.q, SUPPORTED_KINDS, name, now), AfterPoll(s.q, c));
  }

  lemma SidecarKeeps(s: State, w: int, name: string, now: int)
    requires Inv(s) && Enabled(s, Sidecar(w, name, now))
    ensures Inv(Step(s, Sidecar(w, name, now)))
  {
    var c := Claimed(s.q, NON_TG_KINDS);
    hide Claimed;
    WorkerKeeps(s, w, AfterClaim(s.q, NON_TG_KINDS, name, now), AfterSidecar(s.workers[w].job, c));
  }

  lemma FinishKeeps(s: State, w: int, j: int, error: Option<string>, now: int)
    requires Inv(s) && Enabled(s, Finish(w, j, error, now))
    ensures Inv(Step(s, Finish(w, j, error, now)))
  {
    WorkerKeeps(s, w, Marked(s.q, j, error, now), AfterFinish(s.workers[w], j));
  }

  lemma StepKeeps(s: State, a: Action)
    requires Inv(s) && Enabled(s, a) && Fresh(s, a)
    ensures Inv(Step(s, a))
  {
    match a
    case Enqueue(kind, now) => TableKeeps(s, Created(s.q, kind, now));
    case Poll(w, name, now) => PollKeeps(s, w, name, now);
    case Sidecar(w, name, now) => SidecarKeeps(s, w, name, now);
    case Beat(w, j, name, now) => TableKeeps(s, Touched(s.q, j, name, now));
    case Finish(w, j, error, now) => FinishKeeps(s, w, j, error, now);
    case Sweep(maxAge, now) => SweepKeeps(s, maxAge, now);
    case Supersede(j, error, now) => TableKeeps(s, Marked(s.q, j, Some(error), now));
  }

  lemma SweepKeeps(s: State, maxAge: int, now: int)
    requires Inv(s) && Fresh(s, Sweep(maxAge, now))
    ensures Inv(s.(q := Requeued(s.q, maxAge, now)))
  {
    forall w, j | w in s.workers && j in s.workers[w].Holds() && j in s.q.jobs
      ensures !Stale(s.q.jobs[j], maxAge, now)
    {
      assert Held(s, j);
    }
    TableKeeps(s, Requeued(s.q, maxAge, now));
  }

  lemma StepRuns(s: State, a: Action)
    requires Inv(s) && HeldRunning(s) && Enabled(s, a) && Fresh(s, a) && Spares(s, a)
    ensures HeldRunning(Step(s, a))
  {
    match a
    case Enqueue(kind, now) => TableRuns(s, Created(s.q, kind, now));
    case Poll(w, name, now) => PollRuns(s, w, name, now);
    case Sidecar(w, name, now) => SidecarRuns(s, w, name, now);
    case Beat(w, j, name, now) => TableRuns(s, Touched(s.q, j, name, now));
    case Finish(w, j, error, now) => WorkerRuns(s, w, Marked(s.q, j, error, now), AfterFinish(s.workers[w], j));
    case Sweep(maxAge, now) => SweepRuns(s, maxAge, now);
    case Supersede(j, error, now) => SupersedeRuns(s, j, error, now);
  }

  lemma SweepRuns(s: State, maxAge: int, now: int)
    requires HeldRunning(s) && Fresh(s, Sweep(maxAge, now))
    ensures HeldRunning(s.(q := Requeued(s.q, maxAge, now)))
  {
    forall w, j | w in s.workers && j in s.workers[w].Holds() && j in s.q.jobs
      ensures !Stale(s.q.jobs[j], maxAge, now)
    {
      assert Held(s, j);
    }
    TableRuns(s, Requeued(s.q, maxAge, now));
  }

  lemma SupersedeRuns(s: State, job: int, error: string, now: int)
    requires HeldRunning(s) && Spares(s, Supersede(job, error, now))
    ensures HeldRunning(s.(q := Marked(s.q, job, Some(error), now)))
  {
    forall w, j | w in s.workers && j in s.workers[w].Holds() ensures j != job { assert Held(s, j); }
    TableRuns(s, Marked(s.q, job, Some(error), now));
  }

  /** A sweep that finds a held job stale leaves it waiting at once. */
  lemma StaleSweepBreaks(s: State, a: Action)
    requires Enabled(s, a) && !Fresh(s, a)
    ensures !SingleHolder(Step(s, a))
  {
    var j :| Held(s, j) && j in s.q.jobs && Stale(s.q.jobs[j], a.maxAge, a.now);
    var w :| w in s.workers && j in s.workers[w].Holds();
    assert Step(s, a).q.jobs[j].status == Queued;
  }

  /** A held job that is marked as failed is no longer running. */
  lemma SupersedeBreaks(s: State, a: Action)
    requires Enabled(s, a) && !Spares(s, a)
    ensures !HeldRunning(Step(s, a))
  {
    var w :| w in s.workers && a.job in s.workers[w].Holds();
    assert Step(s, a).q.jobs[a.job].status == Failed;
  }

  lemma TableRuns(s: State, r: Queue)
    requires HeldRunning(s) && s.q.jobs.Keys <= r.jobs.Keys
    requires forall w, j :: w in s.workers && j in s.workers[w].Holds() && j in s.q.jobs ==>
               s.q.jobs[j].status == Running ==> r.jobs[j].status == Running
    ensures HeldRunning(s.(q := r))
  {
  }

  lemma WorkerRuns(s: State, w: int, r: Queue, x: Worker)
    requires HeldRunning(s) && w in s.workers && r.jobs.Keys == s.q.jobs.Keys
    requires forall v, j :: v in s.workers && v != w && j in s.workers[v].Holds() && j in s.q.jobs ==>
               r.jobs[j] == s.q.jobs[j]
    requires forall j :: j in x.Holds() ==> j in r.jobs && r.jobs[j].status == Running
    ensures HeldRunning(State(r, s.workers[w := x]))
  {
  }

  lemma PollRuns(s: State, w: int, name: string, now: int)
    requires Inv(s) && HeldRunning(s) && Enabled(s, Poll(w, name, now))
    ensures HeldRunning(Step(s, Poll(w, name, now)))
  {
    var c := Claimed(s.q, SUPPORTED_KINDS);
    hide Claimed;
    WorkerRuns(s, w, AfterClaim(s.q, SUPPORTED_KINDS, name, now), AfterPoll(s.q, c));
  }

  lemma SidecarRuns(s: State, w: int, name: string, now: int)
    requires Inv(s) && HeldRunning(s) && Enabled(s, Sidecar(w, name, now))
    ensures HeldRunning(Step(s, Sidecar(w, name, now)))
  {
    var c := Claimed(s.q, NON_TG_KINDS);
    hide Claimed;
    WorkerRuns(s, w, AfterClaim(s.q, NON_TG_KINDS, name, now), AfterSidecar(s.workers[w].job, c));
  }

  lemma {:induction false} RunKeeps(s: State, run: seq<Action>)
    requires Inv(s) && ValidRun(s, run) && AllSteps(Fresh, s, run)
    ensures Inv(Exec(s, run))
    decreases |run|
  {
    hide Inv, Step, Fresh, Enabled;
    if run != [] {
      StepKeeps(s, run[0]);
      RunKeeps(Step(s, run[0]), run[1..]);
    }
  }

  // ----------------------------------------------------------- main results

  /** Under fresh heartbeats, with any number of workers, every job has at most one executor,
      and is not waiting to be claimed again. */
  lemma OneExecutor(s: State, run: seq<Action>, w: int, v: int, j: int)
    requires Initial(s) && ValidRun(s, run) && AllSteps(Fresh, s, run)
    requires var t := Exec(s, run); w in t.workers && v in t.workers
    requires var t := Exec(s, run); j in t.workers[w].Holds() && j in t.workers[v].Holds()
    ensures var t := Exec(s, run); w == v && j in t.q.jobs && t.q.jobs[j].status != Queued
  {
    RunKeeps(s, run);
    hide Exec;
  }

  /** At every point of a run each held job has one holder and is not waiting, exactly if no
      sweep ever finds a held job stale. */
  lemma SingleHolderExactly(s: State, run: seq<Action>)
    requires Initial(s) && ValidRun(s, run)
    ensures Always(SingleHolder, s, run) <==> AllSteps(Fresh, s, run)
  {
    HolderRun(s, run);
  }

  lemma {:induction false} HolderRun(s: State, run: seq<Action>)
    requires Inv(s) && ValidRun(s, run)
    ensures Always(SingleHolder, s, run) <==> AllSteps(Fresh, s, run)
    decreases |run|
  {
    assert SingleHolder(s);
    hide Inv, SingleHolder, Step, Fresh, Enabled;
    if run != [] {
      if Fresh(s, run[0]) {
        StepKeeps(s, run[0]);
        HolderRun(Step(s, run[0]), run[1..]);
      } else {
        StaleSweepBreaks(s, run[0]);
        AlwaysNow(SingleHolder, Step(s, run[0]), run[1..]);
      }
    }
  }

  lemma AlwaysNow(p: State -> bool, s: State, run: seq<Action>)
    requires ValidRun(s, run)
    ensures Always(p, s, run) ==> p(s)
  {
  }

  /** At every point of a run under fresh heartbeats each held job is running, exactly if no job
      is ever marked as failed from outside while a worker holds it. */
  lemma HeldRunningExactly(s: State, run: seq<Action>)
    requires Initial(s) && ValidRun(s, run) && AllSteps(Fresh, s, run)
    ensures Always(HeldRunning, s, run) <==> AllSteps(Spares, s, run)
  {
    RunningRun(s, run);
  }

  lemma {:induction false} RunningRun(s: State, run: seq<Action>)
    requires Inv(s) && HeldRunning(s) && ValidRun(s, run) && AllSteps(Fresh, s, run)
    ensures Always(HeldRunning, s, run) <==> AllSteps(Spares, s, run)
    decreases |run|
  {
    hide Inv, HeldRunning, Step, Fresh, Spares, Enabled;
    if run != [] {
      StepKeeps(s, run[0]);
      if Spares(s, run[0]) {
        StepRuns(s, run[0]);
        RunningRun(Step(s, run[0]), run[1..]);
      } else {
        SupersedeBreaks(s, run[0]);
        AlwaysNow(HeldRunning, Step(s, run[0]), run[1..]);
      }
    }
  }

  /** A job that is marked as failed while it executes keeps its executor: it happens with one job
      and one worker, 181 seconds after its last heartbeat. */
  lemma SupersededReached(kind: string, name: string, message: string)
    requires kind in TG_KINDS
    ensures var s, run := State(Queue(map[], 0), map[1 := Idle, 2 := Idle]), [Enqueue(kind, 0), Poll(1, name, 0)];
            && Initial(s) && ValidRun(s, run)
            && (var t := Step(Exec(s, run), Supersede(1, message, 181));
                1 in t.workers && 1 in t.workers[1].Holds() && 1 in t.q.jobs && t.q.jobs[1].status == Failed)
  {
    StaleJobReached(kind, name);
    hide Exec;
  }

  // ------------------------------------------------------------- pairs of jobs

  /** A Telegram job is alone, and at most two jobs go together. */
  ghost predicate Paired(q: Queue, w: Worker) {
    && (w.First? ==> !IsTg(q, w.job))
    && |w.Holds()| <= 2
    && (forall j :: j in w.Holds() && IsTg(q, j) ==> w.Holds() == {j})
    && (w.Executing? ==> w.jobs != {})
  }

  /** Held jobs exist, a Telegram job is held alone, and at most two jobs go together. */
  ghost predicate Pairs(s: State) {
    && WellFormed(s.q)
    && (forall w, j :: w in s.workers && j in s.workers[w].Holds() ==> j in s.q.jobs)
    && forall w :: w in s.workers ==> Paired(s.q, s.workers[w])
  }

  lemma KindsKept(q: Queue, r: Queue, w: Worker)
    requires Paired(q, w)
    requires forall j :: j in w.Holds() ==>
               (j in q.jobs <==> j in r.jobs) && (j in q.jobs ==> q.jobs[j].kind == r.jobs[j].kind)
    ensures Paired(r, w)
  {
    forall j | j in w.Holds() ensures IsTg(q, j) == IsTg(r, j) {}
  }

  lemma KindsApart(kind: string)
    requires kind in NON_TG_KINDS
    ensures kind !in TG_KINDS
  {
    assert |"emby_subscription_sync"| == 22 && |"retry_failed_resources"| == 22;
    assert |"subscription_search"| == 19 && |"subscription_search_all"| == 23;
  }

  lemma TablePairs(s: State, r: Queue)
    requires Pairs(s) && WellFormed(r) && s.q.jobs.Keys <= r.jobs.Keys
    requires forall j :: j in s.q.jobs ==> r.jobs[j].kind == s.q.jobs[j].kind
    ensures Pairs(s.(q := r))
  {
    forall w | w in s.workers ensures Paired(r, s.workers[w]) {
      KindsKept(s.q, r, s.workers[w]);
    }
  }

  lemma WorkerPairs(s: State, w: int, r: Queue, x: Worker)
    requires Pairs(s) && WellFormed(r) && r.jobs.Keys == s.q.jobs.Keys && w in s.workers
    requires forall j :: j in s.q.jobs ==> r.jobs[j].kind == s.q.jobs[j].kind
    requires Paired(r, x) && forall j :: j in x.Holds() ==> j in r.jobs
    ensures Pairs(State(r, s.workers[w := x]))
  {
    var t := State(r, s.workers[w := x]);
    forall v | v in t.workers ensures Paired(r, t.workers[v]) {
      if v != w { KindsKept(s.q, r, s.workers[v]); }
    }
  }

  lemma PollPairs(s: State, w: int, name: string, now: int)
    requires Pairs(s) && Enabled(s, Poll(w, name, now))
    ensures Pairs(Step(s, Poll(w, name, now)))
  {
    var c := Claimed(s.q, SUPPORTED_KINDS);
    hide Claimed;
    WorkerPairs(s, w, AfterClaim(s.q, SUPPORTED_KINDS, name, now), AfterPoll(s.q, c));
  }

  lemma SidecarPairs(s: State, w: int, name: string, now: int)
    requires Pairs(s) && Enabled(s, Sidecar(w, name, now))
    ensures Pairs(Step(s, Sidecar(w, name, now)))
  {
    var c := Claimed(s.q, NON_TG_KINDS);
    hide Claimed;
    if c.Some? {
      KindsApart(s.q.jobs[c.value].kind);
      assert |{s.workers[w].job, c.value}| <= 2;
    }
    WorkerPairs(s, w, AfterClaim(s.q, NON_TG_KINDS, name, now), AfterSidecar(s.workers[w].job, c));
  }

  lemma FinishPairs(s: State, w: int, j: int, error: Option<string>, now: int)
    requires Pairs(s) && Enabled(s, Finish(w, j, error, now))
    ensures Pairs(Step(s, Finish(w, j, error, now)))
  {
    var x := AfterFinish(s.workers[w], j);
    assert forall i :: i in x.Holds() ==> i in s.workers[w].Holds();
    WorkerPairs(s, w, Marked(s.q, j, error, now), x);
  }

  lemma StepPairs(s: State, a: Action)
    requires Pairs(s) && Enabled(s, a)
    ensures Pairs(Step(s, a))
  {
    match a
    case Enqueue(kind, now) => TablePairs(s, Created(s.q, kind, now));
    case Poll(w, name, now) => PollPairs(s, w, name, now);
    case Sidecar(w, name, now) => SidecarPairs(s, w, name, now);
    case Beat(w, j, name, now) => TablePairs(s, Touched(s.q, j, name, now));
    case Finish(w, j, error, now) => FinishPairs(s, w, j, error, now);
    case Sweep(maxAge, now) => TablePairs(s, Requeued(s.q, maxAge, now));
    case Supersede(j, error, now) => TablePairs(s, Marked(s.q, j, Some(error), now));
  }

  lemma {:induction false} RunPairs(s: State, run: seq<Action>)
    requires Pairs(s) && ValidRun(s, run)
    ensures Pairs(Exec(s, run))
    decreases |run|
  {
    hide Pairs, Step, Enabled;
    if run != [] {
      StepPairs(s, run[0]);
      RunPairs(Step(s, run[0]), run[1..]);
    }
  }

  /** Every worker, in every run, stale or not, executes a Telegram job alone and never more than
      two jobs. */
  lemma TelegramAlone(s: State, run: seq<Action>, w: int)
    requires Initial(s) && ValidRun(s, run) && w in Exec(s, run).workers
    ensures var t := Exec(s, run);
            |t.workers[w].Holds()| <= 2 &&
            forall j :: j in t.workers[w].Holds() && IsTg(t.q, j) ==> t.workers[w].Holds() == {j}
  {
    RunPairs(s, run);
    hide Exec;
  }

  /** Without fresh heartbeats it fails in every state: a sweep that finds a held job stale hands
      it to the next idle worker as soon as no older supported job is queued. */
  lemma StaleJobRunsTwice(s: State, w: int, v: int, j: int, maxAge: int, name: string, now: int)
    requires w in s.workers && v in s.workers && s.workers[v].Idle? && j in s.workers[w].Holds()
    requires j in s.q.jobs && s.q.jobs[j].kind in SUPPORTED_KINDS && Stale(s.q.jobs[j], maxAge, now)
    requires forall i :: i in Claimable(Requeued(s.q, maxAge, now), SUPPORTED_KINDS) ==> j <= i
    ensures var t := Step(Step(s, Sweep(maxAge, now)), Poll(v, name, now));
            v != w && j in t.workers[w].Holds() && j in t.workers[v].Holds()
  {
    var r := Requeued(s.q, maxAge, now);
    assert j in Claimable(r, SUPPORTED_KINDS);
    assert Claimed(r, SUPPORTED_KINDS) == Some(j);
  }

  /** And it happens: one job, one worker that stops beating, and another that sweeps after half an hour. */
  lemma StaleJobReached(kind: string, name: string)
    requires kind in TG_KINDS
    ensures var s, run := State(Queue(map[], 0), map[1 := Idle, 2 := Idle]), [Enqueue(kind, 0), Poll(1, name, 0)];
            && Initial(s) && ValidRun(s, run)
            && (var t := Exec(s, run);
                && t.workers == map[1 := Executing({1}), 2 := Idle] && 1 in t.q.jobs && Stale(t.q.jobs[1], 1800, 1800)
                && var u := Step(Step(t, Sweep(1800, 1800)), Poll(2, name, 1800));
                   1 in u.workers[1].Holds() && 1 in u.workers[2].Holds())
  {
    var s := State(Queue(map[], 0), map[1 := Idle, 2 := Idle]);
    var a, b := Enqueue(kind, 0), Poll(1, name, 0);
    var one := Step(s, a);
    assert kind in SUPPORTED_KINDS;
    assert one.q.jobs == map[1 := Job(kind, Queued, None, None, None, None, None, 0)];
    assert 1 in Claimable(one.q, SUPPORTED_KINDS);
    assert Claimed(one.q, SUPPORTED_KINDS) == Some(1);
    var t := Step(one, b);
    assert t.workers == map[1 := Executing({1}), 2 := Idle] && t.q.jobs.Keys == {1};
    TwoSteps(s, a, b, one);
    forall i | i in Claimable(Requeued(t.q, 1800, 1800), SUPPORTED_KINDS) ensures 1 <= i {}
    StaleJobRunsTwice(t, 1, 2, 1, 1800, name, 1800);
  }

  lemma TwoSteps(s: State, a: Action, b: Action, one: State)
    requires Enabled(s, a) && Step(s, a) == one && Enabled(one, b)
    ensures ValidRun(s, [a, b]) && Exec(s, [a, b]) == Step(one, b)
  {
    hide Step, Enabled;
    OneStep(one, b);
    assert [a, b][1..] == [b];
  }

  lemma OneStep(s: State, a: Action)
    requires Enabled(s, a)
    ensures ValidRun(s, [a]) && Exec(s, [a]) == Step(s, a)
  {
    hide Step, Enabled;
    assert [a][1..] == [];
    assert ValidRun(Step(s, a), []) && Exec(Step(s, a), []) == Step(s, a);
  }

  /** What a worker holds changes by its own claims and ends alone: a poll takes the job it claims, a
      sidecar is added, and an end takes away the job that ended. */
  lemma HoldingsExactly(s: State, a: Action, w: int)
    requires Enabled(s, a) && w in s.workers
    ensures var before, after := s.workers[w].Holds(), Step(s, a).workers[w].Holds();
            && (a.Poll? && a.w == w ==>
                before == {} && forall j :: j in after <==> Claimed(s.q, SUPPORTED_KINDS) == Some(j))
            && (a.Sidecar? && a.w == w ==>
                forall j :: j in after <==> j in before || Claimed(s.q, NON_TG_KINDS) == Some(j))
            && (a.Finish? && a.w == w ==> forall j :: j in after <==> j in before && j != a.job)
            && (!(a.Poll? || a.Sidecar? || a.Finish?) || a.w != w ==> after == before)
  {
  }

  /** A job that is not of Telegram is executed beside the next such job. */
  lemma PairsFormed(s: State, w: int, name: string, now: int, job: int, extra: int)
    requires w in s.workers && s.workers[w].Idle? && Claimed(s.q, SUPPORTED_KINDS) == Some(job) && !IsTg(s.q, job)
    requires IsNext(s.q, job, extra)
    ensures var t := Step(s, Poll(w, name, now));
            && Enabled(t, Sidecar(w, name, now)) && Step(t, Sidecar(w, name, now)).workers[w] == Executing({job, extra})
  {
    NextClaimed(s.q, job, name, now);
  }

  // ----------------------------------------------------- one worker's loop

  /** Rows that were waiting for this worker are finished or still as they were; no other row
      changed. */
  ghost predicate Worked(q: Queue, r: Queue, outcome: int -> Option<string>) {
    && r.lastId == q.lastId && r.jobs.Keys == q.jobs.Keys
    && forall id :: id in q.jobs ==>
        r.jobs[id] == q.jobs[id] || (id in Claimable(q, SUPPORTED_KINDS) && Ended(r, id, outcome))
  }

  /** The row is done if its execution raised nothing, and failed with what it raised otherwise. */
  predicate Ended(q: Queue, id: int, outcome: int -> Option<string>) {
    && id in q.jobs && q.jobs[id].error == outcome(id)
    && q.jobs[id].status == if outcome(id).None? then Done else Failed
  }

  /** `_execute`: the job ends done or failed, whatever its dispatch does. */
  method Execute(table: JobTable, id: int, error: Option<string>, now: int)
    modifies table
    ensures table.Now() == Marked(old(table.Now()), id, error, now)
  {
    if error.None? {
      table.MarkDone(id, now);
    } else {
      table.MarkFailed(id, error.value, now);
    }
  }

  /** The loop of `_run` until a claim comes back empty.  `outcome` says how each job ends.  Each
      round claims at least one waiting job, so their number is the measure; when it returns,
      every supported job that was waiting has been executed and finished, and nothing else
      has been touched. */
  method RunUntilEmpty(table: JobTable, name: string, outcome: int -> Option<string>, now: int)
    modifies table
    ensures Worked(old(table.Now()), table.Now(), outcome)
    ensures forall id :: id in Claimable(old(table.Now()), SUPPORTED_KINDS) ==> Ended(table.Now(), id, outcome)
  {
    hide Worked, Claimed, Claimable, Finished, Ended, RoundDone;
    ghost var before := table.Now();
    NothingWorked(before, outcome);
    while true
      invariant Worked(before, table.Now(), outcome)
      decreases Claimable(table.Now(), SUPPORTED_KINDS)
    {
      ghost var q := table.Now();
      var job := table.ClaimNextJob(SUPPORTED_KINDS, name, now);
      if job.None? {
        AllWorked(before, q, outcome);
        return;
      }
      ExecuteWithSidecars(table, job.value, name, outcome, now, q);
      RoundWorked(before, q, table.Now(), job.value, outcome);
    }
  }

  /** Of the rows only these two changed; they were waiting, and are finished. */
  ghost predicate OnlyChanged(q: Queue, r: Queue, job: int, extra: int, outcome: int -> Option<string>) {
    forall id :: id in q.jobs && id in r.jobs && r.jobs[id] != q.jobs[id] ==>
      (id == job || id == extra) && id in Claimable(q, SUPPORTED_KINDS) && Ended(r, id, outcome)
  }

  /** The next job that can go beside this one. */
  predicate IsNext(q: Queue, job: int, extra: int) {
    && extra in Claimable(q, NON_TG_KINDS) && extra != job
    && forall i :: i in Claimable(q, NON_TG_KINDS) && i != job ==> extra <= i
  }

  /** What one round does to the table it began with: the claimed job is finished, and with it the
      next that is not of Telegram, if there is one; none beside a Telegram job. */
  ghost predicate RoundDone(q: Queue, r: Queue, job: int, outcome: int -> Option<string>) {
    && r.lastId == q.lastId && r.jobs.Keys == q.jobs.Keys
    && job in Claimable(q, SUPPORTED_KINDS) && Ended(r, job, outcome)
    && (exists extra :: OnlyChanged(q, r, job, extra, outcome) && (IsTg(q, job) || IsTg(q, extra) ==> extra == job))
    && (!IsTg(q, job) ==> forall e :: IsNext(q, job, e) ==> Ended(r, e, outcome))
  }

  /** `_execute_with_sidecars` on a job just claimed from q. */
  method ExecuteWithSidecars(table: JobTable, job: int, name: string, outcome: int -> Option<string>, now: int,
                             ghost q: Queue)
    requires Claimed(q, SUPPORTED_KINDS) == Some(job) && table.Now() == AfterClaim(q, SUPPORTED_KINDS, name, now)
    modifies table
    ensures RoundDone(q, table.Now(), job, outcome)
  {
    if table.jobs[job].kind in TG_KINDS {
      Execute(table, job, outcome(job), now);
      assert Ended(table.Now(), job, outcome) && OnlyChanged(q, table.Now(), job, job, outcome);
      return;
    }
    ghost var held := table.Now();
    NextClaimed(q, job, name, now);
    var extra := table.ClaimNextJob(NON_TG_KINDS, name, now);
    Execute(table, job, outcome(job), now);
    if extra.Some? && extra.value != job {
      ExtraWaited(q, job, name, now, extra.value);
      Execute(table, extra.value, outcome(extra.value), now);
    }
    ghost var other := if extra.Some? then extra.value else job;
    assert Ended(table.Now(), job, outcome) && OnlyChanged(q, table.Now(), job, other, outcome);
  }

  /** The second claim of a round takes the next job that is not of Telegram. */
  lemma NextClaimed(q: Queue, job: int, name: string, now: int)
    requires Claimed(q, SUPPORTED_KINDS) == Some(job)
    ensures var held := AfterClaim(q, SUPPORTED_KINDS, name, now);
            forall e :: IsNext(q, job, e) ==> Claimed(held, NON_TG_KINDS) == Some(e)
  {
    var held := AfterClaim(q, SUPPORTED_KINDS, name, now);
    forall i ensures i in Claimable(held, NON_TG_KINDS) <==> i in Claimable(q, NON_TG_KINDS) && i != job {}
    hide Claimable, AfterClaim;
  }

  /** A sidecar was waiting for this worker as well. */
  lemma ExtraWaited(q: Queue, job: int, name: string, now: int, extra: int)
    requires Claimed(q, SUPPORTED_KINDS) == Some(job)
    requires Claimed(AfterClaim(q, SUPPORTED_KINDS, name, now), NON_TG_KINDS) == Some(extra)
    ensures extra != job && extra in Claimable(q, SUPPORTED_KINDS)
  {
    hide Claimed;
    assert forall kind :: kind in NON_TG_KINDS ==> kind in SUPPORTED_KINDS;
  }

  lemma NothingWorked(q: Queue, outcome: int -> Option<string>)
    ensures Worked(q, q, outcome)
  {
  }

  lemma AllWorked(before: Queue, q: Queue, outcome: int -> Option<string>)
    requires Worked(before, q, outcome) && Claimable(q, SUPPORTED_KINDS) == {}
    ensures forall id :: id in Claimable(before, SUPPORTED_KINDS) ==> Ended(q, id, outcome)
  {
    forall id | id in Claimable(before, SUPPORTED_KINDS) ensures Ended(q, id, outcome) {
      assert id !in Claimable(q, SUPPORTED_KINDS);
    }
  }

  /** A round finishes jobs that were waiting, at least the one it claimed first. */
  lemma RoundWorked(before: Queue, q: Queue, r: Queue, job: int, outcome: int -> Option<string>)
    requires Worked(before, q, outcome) && RoundDone(q, r, job, outcome)
    ensures Worked(before, r, outcome)
    ensures Claimable(r, SUPPORTED_KINDS) < Claimable(q, SUPPORTED_KINDS)
  {
    forall id | id in Claimable(r, SUPPORTED_KINDS) ensures id in Claimable(q, SUPPORTED_KINDS) {}
    assert job !in Claimable(r, SUPPORTED_KINDS);
    forall id | id in q.jobs && r.jobs[id] != q.jobs[id] ensures id in Claimable(before, SUPPORTED_KINDS) {
      assert q.jobs[id].status == Queued;
    }
  }
}
