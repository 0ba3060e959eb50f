/** The `background_jobs` table: its operations, and what holds of every sequence of them. */
module JobQueue {
  import opened IntSets
  import opened PyText

  datatype Status = Queued | Running | Done | Failed

  datatype Job = Job(kind: string, status: Status, startedAt: Option<int>, heartbeatAt: Option<int>,
                     workerId: Option<string>, finishedAt: Option<int>, error: Option<string>, updatedAt: int)

  /** The rows and the AUTOINCREMENT counter. */
  datatype Queue = Queue(jobs: map<int, Job>, lastId: int)

  predicate WellFormed(q: Queue) { forall id :: id in q.jobs ==> id <= q.lastId }

  predicate Finished(q: Queue, id: int) { id in q.jobs && (q.jobs[id].status == Done || q.jobs[id].status == Failed) }

  // ------------------------------------------------------------ operations

  /** `create_job`. */
  function Created(q: Queue, kind: string, now: int): Queue {
    Queue(q.jobs[q.lastId + 1 := Job(kind, Queued, None, None, None, None, None, now)], q.lastId + 1)
  }

  /** Queued jobs a claim may take; no kinds means every kind. */
  function Claimable(q: Queue, kinds: seq<string>): set<int> {
    set id | id in q.jobs && q.jobs[id].status == Queued && (kinds == [] || q.jobs[id].kind in kinds)
  }

  function Started(job: Job, worker: string, now: int): Job {
    job.(status := Running, startedAt := if job.startedAt.Some? then job.startedAt else Some(now),
         heartbeatAt := Some(now), workerId := Some(worker), updatedAt := now)
  }

  /** `claim_next_job`: the id it takes, which is the lowest one it may take. */
  function Claimed(q: Queue, kinds: seq<string>): (r: Option<int>)
    ensures r.None? <==> Claimable(q, kinds) == {}
    ensures r.Some? ==> r.value in Claimable(q, kinds) && forall id :: id in Claimable(q, kinds) ==> r.value <= id
  {
    if Claimable(q, kinds) == {} then None else Some(Lowest(Claimable(q, kinds)))
  }

  function AfterClaim(q: Queue, kinds: seq<string>, worker: string, now: int): Queue {
    match Claimed(q, kinds)
    case None => q
    case Some(id) => q.(jobs := q.jobs[id := Started(q.jobs[id], worker, now)])
  }

  /** `touch_job_heartbeat`. */
  function Touched(q: Queue, id: int, worker: string, now: int): Queue {
    if id in q.jobs && q.jobs[id].status == Running then
      q.(jobs := q.jobs[id := q.jobs[id].(heartbeatAt := Some(now), workerId := Some(worker), updatedAt := now)])
    else q
  }

  /** `mark_job_done` and `mark_job_failed`: neither looks at the current status. */
  function Marked(q: Queue, id: int, error: Option<string>, now: int): Queue {
    if id in q.jobs then
      q.(jobs := q.jobs[id := q.jobs[id].(status := if error.None? then Done else Failed, error := error,
                                          finishedAt := Some(now), updatedAt := now)])
    else q
  }

  /** `heartbeat_at or started_at or updated_at`. */
  function Stamp(job: Job): int {
    if job.heartbeatAt.Some? then job.heartbeatAt.value
    else if job.startedAt.Some? then job.startedAt.value
    else job.updatedAt
  }

  predicate Stale(job: Job, maxAge: int, now: int) { job.status == Running && now - Stamp(job) >= maxAge }

  const STALE_ERROR := "stale running job requeued (heartbeat timeout)"

  function Returned(job: Job, now: int): Job {
    job.(status := Queued, startedAt := None, heartbeatAt := None, workerId := None,
         error := if job.error.Some? then job.error else Some(STALE_ERROR), updatedAt := now)
  }

  function StaleIds(q: Queue, maxAge: int, now: int): set<int> {
    set id | id in q.jobs && Stale(q.jobs[id], maxAge, now)
  }

  /** `requeue_stale_running_jobs`. */
  function Requeued(q: Queue, maxAge: int, now: int): Queue {
    q.(jobs := map id | id in q.jobs ::
                 if Stale(q.jobs[id], maxAge, now) then Returned(q.jobs[id], now) else q.jobs[id])
  }

  // ----------------------------------------------------- runs of operations

  datatype Op =
    | Create(kind: string, now: int)
    | Claim(kinds: seq<string>, worker: string, now: int)
    | Touch(id: int, worker: string, now: int)
    | Requeue(maxAge: int, now: int)
    | Mark(id: int, error: Option<string>, now: int)

  function Apply(q: Queue, op: Op): Queue {
    match op
    case Create(kind, now) => Created(q, kind, now)
    case Claim(kinds, worker, now) => AfterClaim(q, kinds, worker, now)
    case Touch(id, worker, now) => Touched(q, id, worker, now)
    case Requeue(maxAge, now) => Requeued(q, maxAge, now)
    case Mark(id, error, now) => Marked(q, id, error, now)
  }

  function ApplyAll(q: Queue, ops: seq<Op>): Queue
    decreases |ops|
  {
    if ops == [] then q else ApplyAll(Apply(q, ops[0]), ops[1..])
  }

  /** The jobs started by a run, in order, with their kinds. */
  function Starts(q: Queue, ops: seq<Op>): seq<(int, string)>
    decreases |ops|
  {
    if ops == [] then []
    else
      var rest := Starts(Apply(q, ops[0]), ops[1..]);
      match ops[0]
      case Claim(kinds, _, _) =>
        if Claimed(q, kinds).Some?
        then [(Claimed(q, kinds).value, q.jobs[Claimed(q, kinds).value].kind)] + rest
        else rest
      case _ => rest
  }

  lemma FinishedStep(q: Queue, op: Op, id: int)
    requires WellFormed(q) && Finished(q, id)
    ensures WellFormed(Apply(q, op)) && Finished(Apply(q, op), id)
  {
  }

  /** A finished job stays finished, and no operation ever starts it again. */
  lemma {:induction false} FinishedForever(q: Queue, ops: seq<Op>, id: int)
    requires WellFormed(q) && Finished(q, id)
    ensures Finished(ApplyAll(q, ops), id)
    ensures forall i :: 0 <= i < |Starts(q, ops)| ==> Starts(q, ops)[i].0 != id
    decreases |ops|
  {
    if ops != [] {
      FinishedStep(q, ops[0], id);
      FinishedForever(Apply(q, ops[0]), ops[1..], id);
    }
  }

  /** What the columns of a row say of each other. */
  predicate RowOk(job: Job) {
    && (job.startedAt.Some? <==> job.heartbeatAt.Some?) && (job.startedAt.Some? <==> job.workerId.Some?)
    && (job.status == Queued ==> job.startedAt.None? && job.finishedAt.None?)
    && (job.status == Running ==> job.startedAt.Some? && job.finishedAt.None?)
    && (job.status == Done ==> job.finishedAt.Some? && job.error.None?)
    && (job.status == Failed ==> job.finishedAt.Some? && job.error.Some?)
  }

  predicate RowsOk(q: Queue) { forall id :: id in q.jobs ==> RowOk(q.jobs[id]) }

  lemma RowsStep(q: Queue, op: Op)
    requires RowsOk(q)
    ensures RowsOk(Apply(q, op))
  {
    forall id | id in Apply(q, op).jobs ensures RowOk(Apply(q, op).jobs[id]) {
      if id in q.jobs { assert RowOk(q.jobs[id]); }
    }
  }

  /** In every run: a row has a start, a heartbeat and a worker together, waiting rows have none and
      running rows have them; finished rows have an end, and an error exactly if they failed. */
  lemma {:induction false} RowsKept(q: Queue, ops: seq<Op>)
    requires RowsOk(q)
    ensures RowsOk(ApplyAll(q, ops))
    decreases |ops|
  {
    if ops != [] {
      RowsStep(q, ops[0]);
      hide RowsOk, Apply;
      RowsKept(Apply(q, ops[0]), ops[1..]);
    }
  }

  /** Hence a claim stamps the row it takes with the present alone, also after a sweep. */
  lemma ClaimedRow(q: Queue, kinds: seq<string>, worker: string, now: int)
    requires RowsOk(q) && Claimed(q, kinds).Some?
    ensures var id := Claimed(q, kinds).value;
            AfterClaim(q, kinds, worker, now).jobs[id]
              == Job(q.jobs[id].kind, Running, Some(now), Some(now), Some(worker), None, q.jobs[id].error, now)
  {
    assert RowOk(q.jobs[Claimed(q, kinds).value]);
  }

  /** A row that has a start keeps it when it is claimed. */
  lemma EarlierStartKept(q: Queue, kinds: seq<string>, worker: string, now: int)
    requires Claimed(q, kinds).Some? && q.jobs[Claimed(q, kinds).value].startedAt.Some?
    ensures var id := Claimed(q, kinds).value;
            AfterClaim(q, kinds, worker, now).jobs[id].startedAt == q.jobs[id].startedAt
  {
  }

  /** And a sweep leaves a stale row as new, except that it says why unless an earlier error is there. */
  lemma SweptRow(q: Queue, maxAge: int, now: int, id: int)
    requires RowsOk(q) && id in StaleIds(q, maxAge, now)
    ensures var row, error := q.jobs[id], "stale running job requeued (heartbeat timeout)";
            Requeued(q, maxAge, now).jobs[id]
              == Job(row.kind, Queued, None, None, None, None, if row.error.Some? then row.error else Some(error), now)
  {
    assert RowOk(q.jobs[id]);
  }

  /** A running row without a heartbeat is as old as its start, and without one as its last change. */
  lemma OldWithoutHeartbeat(job: Job, maxAge: int, now: int)
    requires job.status == Running && job.heartbeatAt.None?
    ensures job.startedAt.Some? ==> (Stale(job, maxAge, now) <==> now - job.startedAt.value >= maxAge)
    ensures job.startedAt.None? ==> (Stale(job, maxAge, now) <==> now - job.updatedAt >= maxAge)
  {
  }

  /** A claim and every heartbeat buy exactly `maxAge` seconds. */
  lemma HeartbeatBuys(q: Queue, id: int, kinds: seq<string>, worker: string, at: int, maxAge: int, now: int)
    ensures id in q.jobs && q.jobs[id].status == Running ==>
              (Stale(Touched(q, id, worker, at).jobs[id], maxAge, now) <==> now - at >= maxAge)
    ensures Claimed(q, kinds) == Some(id) ==>
              (Stale(AfterClaim(q, kinds, worker, at).jobs[id], maxAge, now) <==> now - at >= maxAge)
  {
  }

  /** A sweep leaves nothing stale, puts back exactly the stale rows for anyone to claim, and leaves the others
      alone. */
  lemma SweepExact(q: Queue, maxAge: int, now: int)
    ensures StaleIds(Requeued(q, maxAge, now), maxAge, now) == {}
    ensures Claimable(Requeued(q, maxAge, now), []) == Claimable(q, []) + StaleIds(q, maxAge, now)
    ensures forall id :: id in q.jobs && id !in StaleIds(q, maxAge, now) ==>
              Requeued(q, maxAge, now).jobs[id] == q.jobs[id]
  {
    var r := Requeued(q, maxAge, now);
    forall id | id in r.jobs ensures !Stale(r.jobs[id], maxAge, now) {}
    hide Stamp, Stale;
    forall id | id in q.jobs ensures id in Claimable(r, []) <==> id in Claimable(q, []) + StaleIds(q, maxAge, now) {}
  }

  predicate NoRequeue(ops: seq<Op>) { forall i :: 0 <= i < |ops| ==> !ops[i].Requeue? }

  /** Every queued job of the kind has an id above the bound. */
  predicate QueuedAbove(q: Queue, kind: string, bound: int) {
    bound <= q.lastId && forall id :: id in q.jobs && q.jobs[id].status == Queued && q.jobs[id].kind == kind ==>
        id > bound
  }

  lemma AboveStep(q: Queue, op: Op, kind: string, bound: int)
    requires WellFormed(q) && !op.Requeue? && QueuedAbove(q, kind, bound)
    ensures WellFormed(Apply(q, op)) && QueuedAbove(Apply(q, op), kind, bound)
  {
  }

  lemma {:induction false} StartsAbove(q: Queue, ops: seq<Op>, kind: string, bound: int)
    requires WellFormed(q) && NoRequeue(ops) && QueuedAbove(q, kind, bound)
    ensures forall i :: 0 <= i < |Starts(q, ops)| && Starts(q, ops)[i].1 == kind ==> Starts(q, ops)[i].0 > bound
    decreases |ops|
  {
    if ops != [] {
      AboveStep(q, ops[0], kind, bound);
      StartsAbove(Apply(q, ops[0]), ops[1..], kind, bound);
    }
  }

  lemma ClaimLeavesAbove(q: Queue, kinds: seq<string>, worker: string, now: int)
    requires WellFormed(q) && Claimed(q, kinds).Some?
    ensures WellFormed(AfterClaim(q, kinds, worker, now))
    ensures var id := Claimed(q, kinds).value;
            QueuedAbove(AfterClaim(q, kinds, worker, now), q.jobs[id].kind, id)
  {
    var id := Claimed(q, kinds).value;
    forall j | j in q.jobs && q.jobs[j].status == Queued && q.jobs[j].kind == q.jobs[id].kind ensures j >= id {
      assert j in Claimable(q, kinds);
    }
  }

  /** Jobs of one kind start in strictly increasing id order. */
  ghost predicate InOrder(s: seq<(int, string)>) {
    forall i, j :: 0 <= i < j < |s| && s[i].1 == s[j].1 ==> s[i].0 < s[j].0
  }

  /** Without requeues, jobs of one kind start in strictly increasing id order, whatever kinds
      each claim asks for. */
  lemma {:induction false} StartsInOrder(q: Queue, ops: seq<Op>)
    requires WellFormed(q) && NoRequeue(ops)
    ensures InOrder(Starts(q, ops))
    decreases |ops|
  {
    if ops != [] {
      var t := Apply(q, ops[0]);
      assert WellFormed(t);
      StartsInOrder(t, ops[1..]);
      if ops[0].Claim? && Claimed(q, ops[0].kinds).Some? {
        var id := Claimed(q, ops[0].kinds).value;
        ClaimLeavesAbove(q, ops[0].kinds, ops[0].worker, ops[0].now);
        StartsAbove(t, ops[1..], q.jobs[id].kind, id);
        assert Starts(q, ops) == [(id, q.jobs[id].kind)] + Starts(t, ops[1..]);
      } else {
        assert Starts(q, ops) == Starts(t, ops[1..]);
      }
    }
  }

  // ------------------------------------------------------------- the table

  class JobTable {
    var jobs: map<int, Job>
    var lastId: int

    ghost function Now(): Queue
      reads this
    {
      Queue(jobs, lastId)
    }

    constructor ()
      ensures Now() == Queue(map[], 0)
    {
      jobs, lastId := map[], 0;
    }

    method CreateJob(kind: string, now: int) returns (id: int)
      modifies this
      ensures Now() == Created(old(Now()), kind, now) && id == lastId
    {
      lastId := lastId + 1;
      id := lastId;
      jobs := jobs[id := Job(kind, Queued, None, None, None, None, None, now)];
    }

    method ClaimNextJob(kinds: seq<string>, worker: string, now: int) returns (id: Option<int>)
      modifies this
      ensures id == Claimed(old(Now()), kinds) && Now() == AfterClaim(old(Now()), kinds, worker, now)
    {
      var candidates := set j | j in jobs && jobs[j].status == Queued && (kinds == [] || jobs[j].kind in kinds);
      assert candidates == Claimable(Now(), kinds);
      if candidates == {} {
        return None;
      }
      var j := Lowest(candidates);
      jobs := jobs[j := Started(jobs[j], worker, now)];
      return Some(j);
    }

    method TouchHeartbeat(id: int, worker: string, now: int)
      modifies this
      ensures Now() == Touched(old(Now()), id, worker, now)
    {
      if id in jobs && jobs[id].status == Running {
        jobs := jobs[id := jobs[id].(heartbeatAt := Some(now), workerId := Some(worker), updatedAt := now)];
      }
    }

    method MarkDone(id: int, now: int)
      modifies this
      ensures Now() == Marked(old(Now()), id, None, now)
    {
      if id in jobs {
        jobs := jobs[id := jobs[id].(status := Done, error := None, finishedAt := Some(now), updatedAt := now)];
      }
    }

    method MarkFailed(id: int, error: string, now: int)
      modifies this
      ensures Now() == Marked(old(Now()), id, Some(error), now)
    {
      if id in jobs {
        jobs := jobs[id := jobs[id].(status := Failed, error := Some(error), finishedAt := Some(now),
          updatedAt := now)];
      }
    }

    /** The update of one running row. */
    method RequeueIfStale(id: int, maxAge: int, now: int) returns (n: nat)
      requires id in jobs
      modifies this
      ensures lastId == old(lastId)
      ensures var was := old(jobs);
              jobs == if now - Stamp(was[id]) >= maxAge then was[id := Returned(was[id], now)] else was
      ensures n == if now - Stamp(old(jobs[id])) >= maxAge then 1 else 0
    {
      n := 0;
      if now - Stamp(jobs[id]) >= maxAge {
        jobs := jobs[id := Returned(jobs[id], now)];
        n := 1;
      }
    }

    /** Goes over the running rows one by one; the count is the number of rows it requeued. */
    method RequeueStale(maxAge: int, now: int) returns (count: nat)
      modifies this
      ensures Now() == Requeued(old(Now()), maxAge, now)
      ensures count == |StaleIds(old(Now()), maxAge, now)|
    {
      hide Partly, StaleIds, Requeued, Returned, Stale, Stamp, Divided;
      ghost var before := Now();
      var todo := set id | id in jobs && jobs[id].status == Running;
      ghost var seen := {};
      assert todo == RunningIds(before);
      hide RunningIds;
      DividedStart(todo);
      count := 0;
      PartlyStart(before, maxAge, now);
      while todo != {}
        invariant lastId == before.lastId && Divided(RunningIds(before), todo, seen)
        invariant jobs == Partly(before, seen, maxAge, now)
        invariant count == |StaleIds(before, maxAge, now) * seen|
        decreases todo
      {
        var id := Lowest(todo);
        MoveOver(RunningIds(before), todo, seen, id);
        PartlyNext(before, seen, id, maxAge, now);
        var n := RequeueIfStale(id, maxAge, now);
        count := count + n;
        todo, seen := todo - {id}, seen + {id};
      }
      DividedEnd(RunningIds(before), seen);
      PartlyEnd(before, seen, maxAge, now);
    }
  }

  function RunningIds(q: Queue): set<int> { set id | id in q.jobs && q.jobs[id].status == Running }

  predicate Divided(all: set<int>, todo: set<int>, seen: set<int>) { todo !! seen && all == todo + seen }

  lemma DividedStart(all: set<int>)
    ensures Divided(all, all, {})
  {
  }

  lemma DividedEnd(all: set<int>, seen: set<int>)
    requires Divided(all, {}, seen)
    ensures all <= seen
  {
  }

  lemma MoveOver(all: set<int>, todo: set<int>, seen: set<int>, id: int)
    requires Divided(all, todo, seen) && id in todo
    ensures Divided(all, todo - {id}, seen + {id}) && id in all && id !in seen
  {
  }

  /** The table after the running rows in `seen` were looked at. */
  function Partly(q: Queue, seen: set<int>, maxAge: int, now: int): map<int, Job> {
    map id | id in q.jobs ::
      if id in seen && Stale(q.jobs[id], maxAge, now) then Returned(q.jobs[id], now) else q.jobs[id]
  }

  lemma PartlyStart(q: Queue, maxAge: int, now: int)
    ensures Partly(q, {}, maxAge, now) == q.jobs && StaleIds(q, maxAge, now) * {} == {}
  {
  }

  lemma PartlyNext(q: Queue, seen: set<int>, id: int, maxAge: int, now: int)
    requires id in RunningIds(q) && id !in seen
    ensures id in Partly(q, seen, maxAge, now)
    ensures var was, next := Partly(q, seen, maxAge, now), Partly(q, seen + {id}, maxAge, now);
            var stale := StaleIds(q, maxAge, now);
            && was[id] == q.jobs[id]
            && next == (if now - Stamp(was[id]) >= maxAge then was[id := Returned(was[id], now)] else was)
            && |stale * (seen + {id})| == |stale * seen| + (if now - Stamp(was[id]) >= maxAge then 1 else 0)
  {
    var stale := StaleIds(q, maxAge, now);
    if id in stale {
      assert stale * (seen + {id}) == stale * seen + {id};
    } else {
      assert stale * (seen + {id}) == stale * seen;
    }
  }

  lemma PartlyEnd(q: Queue, seen: set<int>, maxAge: int, now: int)
    requires RunningIds(q) <= seen
    ensures Requeued(q, maxAge, now) == Queue(Partly(q, seen, maxAge, now), q.lastId)
    ensures StaleIds(q, maxAge, now) * seen == StaleIds(q, maxAge, now)
  {
    forall id | id in StaleIds(q, maxAge, now) ensures id in seen {
      assert id in RunningIds(q);
    }
    var p, r := Partly(q, seen, maxAge, now), Requeued(q, maxAge, now).jobs;
    forall id | id in q.jobs ensures p[id] == r[id] {
      assert Stale(q.jobs[id], maxAge, now) ==> id in RunningIds(q);
    }
    assert p == r;
  }
}
