/**
 The delivery protocol.  A call of `deliver_resource` runs in three stretches without an
 `await` inside: it loads its row; once it holds the lock of the row's key it decides on the
 row *as loaded*, and either returns or starts the push; when the push reports it writes the
 outcome and leaves the lock.  Other calls, and updates of other parts of the program, happen
 in between.  Each call runs on an event loop, and locks are kept per loop and key.
 */
module Delivery {
  import opened DeliveryState
  import opened PyText
  import opened ShareLinks

  /** A call in flight with the row it loaded and its event loop: before the lock, or waiting
      for its push. */
  datatype Call = Waiting(id: int, row: Row, loop: int) | Pushing(id: int, row: Row, loop: int)

  type Lock = (int, Key)

  /** `locks` maps every held lock to its holder; `pushed` lists the successful pushes so far,
      oldest first. */
  datatype State = State(rows: Table, calls: map<int, Call>, locks: map<Lock, int>, pushed: seq<(Key, int)>)

  datatype Action =
    | Load(call: int, id: int, loop: int)
    | Enter(call: int, allowed: bool, now: int)
    | Finish(call: int, ok: bool, message: string, now: int)
    | Insert(id: int, url: string, now: int)
    | Fail(id: int, why: Setback, now: int)

  /** The key a call works on. */
  function KeyOf(call: Call): Option<Key> { DedupeKey(call.row.url) }

  /** The lock a call needs: rows without a key need none. */
  function LockOf(call: Call): Option<Lock> {
    match KeyOf(call)
    case None => None
    case Some(key) => Some((call.loop, key))
  }

  predicate Enabled(s: State, a: Action) {
    match a
    case Load(c, _, _) => c !in s.calls
    case Enter(c, _, _) =>
      c in s.calls && s.calls[c].Waiting? && (LockOf(s.calls[c]).Some? ==> LockOf(s.calls[c]).value !in s.locks)
    case Finish(c, _, _, _) => c in s.calls && s.calls[c].Pushing?
    case Insert(id, _, _) => id !in s.rows
    case Fail(_, _, _) => true
  }

  /** The updates outside the protocol: a row that is still pending is marked as failed. */
  function GivenUp(t: Table, id: int, why: Setback, now: int): Table {
    if id in t then t[id := SetBack(t[id], why, now)] else t
  }

  lemma GivenUpOrNot(t: Table, id: int, why: Setback, now: int)
    ensures !(id in t && t[id].status == "pending") ==> GivenUp(t, id, why, now) == t
  {
    if id in t && t[id].status != "pending" { assert t[id := t[id]] == t; }
  }

  function Entered(s: State, c: int, allowed: bool, now: int): State
    requires c in s.calls
  {
    var call := s.calls[c];
    var id, row := call.id, call.row;
    var left := s.(calls := s.calls - {c});
    if FoldsToDelivered(row.status) then left
    else if !allowed then
      if id in s.rows then left.(rows := s.rows[id := Skipped(s.rows[id], now)]) else left
    else if ExistingDelivery(s.rows, id, row.url).Some? then
      if id in s.rows then left.(rows := s.rows[id := Duplicated(s.rows[id], now)]) else left
    else
      s.(calls := s.calls[c := Pushing(id, row, call.loop)],
         locks := if LockOf(call).Some? then s.locks[LockOf(call).value := c] else s.locks)
  }

  function Finished(s: State, c: int, ok: bool, message: string, now: int): State
    requires c in s.calls
  {
    var call := s.calls[c];
    State(if call.id in s.rows then s.rows[call.id := Recorded(s.rows[call.id], ok, message, now)] else s.rows,
          s.calls - {c},
          if LockOf(call).Some? then s.locks - {LockOf(call).value} else s.locks,
          if ok && KeyOf(call).Some? then s.pushed + [(KeyOf(call).value, call.id)] else s.pushed)
  }

  function Step(s: State, a: Action): State
    requires Enabled(s, a)
  {
    match a
    case Load(c, id, loop) => if id in s.rows then s.(calls := s.calls[c := Waiting(id, s.rows[id], loop)]) else s
    case Enter(c, allowed, now) => Entered(s, c, allowed, now)
    case Finish(c, ok, message, now) => Finished(s, c, ok, message, now)
    case Insert(id, url, now) => s.(rows := s.rows[id := Row(url, "pending", 0, None, now)])
    case Fail(id, why, now) => s.(rows := GivenUp(s.rows, id, why, now))
  }

  // ----------------------------------------------------------------- runs

  predicate Initial(s: State) { s.calls == map[] && s.locks == map[] && s.pushed == [] }

  predicate ValidRun(s: State, run: seq<Action>)
    decreases |run|
  {
    run == [] || (Enabled(s, run[0]) && ValidRun(Step(s, run[0]), run[1..]))
  }

  function Exec(s: State, run: seq<Action>): State
    requires ValidRun(s, run)
    decreases |run|
  {
    if run == [] then s else Exec(Step(s, run[0]), run[1..])
  }

  /** Every state the run passes through has the property. */
  ghost predicate Always(p: State -> bool, s: State, run: seq<Action>)
    requires ValidRun(s, run)
    decreases |run|
  {
    p(s) && (run != [] ==> Always(p, Step(s, run[0]), run[1..]))
  }

  predicate Delivered(s: State, id: int) { id in s.rows && s.rows[id].status == DELIVERED }

  // ------------------------------------------------------- the program

  /** One call of `deliver_resource` that runs without interference. */
  function Alone(s: State, c: int, id: int, loop: int, allowed: bool, ok: bool, message: string, now: int): State
    requires c !in s.calls
  {
    var loaded := Step(s, Load(c, id, loop));
    if id !in s.rows then loaded else
    var entered := Entered(loaded, c, allowed, now);
    if c in entered.calls then Finished(entered, c, ok, message, now) else entered
  }

  /** The delivery service: its table, its calls in flight and its lock dictionary. */
  class Service {
    var rows: Table
    var calls: map<int, Call>
    var locks: map<Lock, int>
    ghost var pushed: seq<(Key, int)>

    ghost function Now(): State
      reads this
    {
      State(rows, calls, locks, pushed)
    }

    constructor (table: Table)
      ensures Initial(Now()) && rows == table
    {
      rows, calls, locks, pushed := table, map[], map[], [];
    }

    method LoadResource(c: int, id: int, loop: int) returns (found: bool)
      requires Enabled(Now(), Load(c, id, loop))
      modifies this
      ensures Now() == Step(old(Now()), Load(c, id, loop)) && (found <==> id in old(rows))
    {
      found := id in rows;
      if found {
        calls := calls[c := Waiting(id, rows[id], loop)];
      }
    }

    /** From the lock to the push, or to an early return of the result. */
    method EnterLocked(c: int, allowed: bool, now: int) returns (result: Option<bool>)
      requires Enabled(Now(), Enter(c, allowed, now))
      modifies this
      ensures Now() == Step(old(Now()), Enter(c, allowed, now))
      ensures result.None? <==> c in calls
      ensures result.Some? ==>
                var call := old(calls)[c];
                (result.value <==> FoldsToDelivered(call.row.status) ||
                                   (allowed && ExistingDelivery(old(rows), call.id, call.row.url).Some?))
    {
      hide DedupeKey, ExistingDelivery, FoldsToDelivered;
      var call := calls[c];
      var id, row := call.id, call.row;
      if FoldsToDelivered(row.status) {
        calls := calls - {c};
        return Some(true);
      }
      if !allowed {
        if id in rows {
          rows := rows[id := Skipped(rows[id], now)];
        }
        calls := calls - {c};
        return Some(false);
      }
      var existing := ExistingDelivery(rows, id, row.url);
      if existing.Some? {
        if id in rows {
          rows := rows[id := Duplicated(rows[id], now)];
        }
        calls := calls - {c};
        return Some(true);
      }
      var lock := LockOf(call);
      if lock.Some? {
        locks := locks[lock.value := c];
      }
      calls := calls[c := Pushing(id, row, call.loop)];
      return None;
    }

    /** After a delivery that returned false or raised. */
    method MarkFailedIfPending(id: int, error: string, now: int)
      modifies this
      ensures Now() == Step(old(Now()), Fail(id, Undelivered(error), now))
    {
      if id in rows && rows[id].status == "pending" {
        var row := rows[id];
        rows := rows[id := row.(status := "failed",
                                lastError := if row.lastError.Some? then row.lastError else Some(Truncated(error)),
                                updatedAt := now)];
      }
      GivenUpOrNot(old(rows), id, Undelivered(error), now);
    }

    /** For one row that has been pending too long. */
    method MarkStuck(id: int, now: int)
      modifies this
      ensures Now() == Step(old(Now()), Fail(id, Stuck, now))
    {
      if id in rows && rows[id].status == "pending" {
        rows := rows[id := rows[id].(status := "failed", lastError := Some(STUCK_ERROR), updatedAt := now)];
      }
      GivenUpOrNot(old(rows), id, Stuck, now);
    }

    /** After a fallback candidate that failed. */
    method MarkCandidateFailedIfPending(id: int, error: Option<string>, now: int)
      modifies this
      ensures Now() == Step(old(Now()), Fail(id, CandidateFailed(error), now))
    {
      if id in rows && rows[id].status == "pending" {
        var row := rows[id];
        var earlier := if row.lastError.Some? then row.lastError else Some(CANDIDATE_ERROR);
        var shown := if error.Some? then error else earlier;
        rows := rows[id := row.(status := "delivery_failed_retryable", lastError := shown, updatedAt := now)];
      }
      GivenUpOrNot(old(rows), id, CandidateFailed(error), now);
    }

    method FinishPush(c: int, ok: bool, message: string, now: int)
      requires Enabled(Now(), Finish(c, ok, message, now))
      modifies this
      ensures Now() == Step(old(Now()), Finish(c, ok, message, now))
    {
      hide DedupeKey, FailedStatus;
      var call := calls[c];
      if call.id in rows {
        rows := rows[call.id := Recorded(rows[call.id], ok, message, now)];
      }
      calls := calls - {c};
      var lock := LockOf(call);
      if lock.Some? {
        locks := locks - {lock.value};
        if ok {
          pushed := pushed + [(lock.value.1, call.id)];
        }
      }
    }

    /** `deliver_resource` when its lock is free. */
    method DeliverResource(c: int, id: int, loop: int, allowed: bool, ok: bool, message: string, now: int)
      returns (r: bool)
      requires Enabled(Now(), Load(c, id, loop))
      requires id in rows && DedupeKey(rows[id].url).Some? ==> (loop, DedupeKey(rows[id].url).value) !in locks
      modifies this
      ensures Now() == Alone(old(Now()), c, id, loop, allowed, ok, message, now)
      ensures r <==> Returns(old(Now()), id, allowed, ok)
    {
      hide DedupeKey, ExistingDelivery, FoldsToDelivered, Finished;
      var found := LoadResource(c, id, loop);
      if !found {
        return false;
      }
      var result := EnterLocked(c, allowed, now);
      if result.Some? {
        return result.value;
      }
      FinishPush(c, ok, message, now);
      return ok;
    }
  }

  /** What such a call returns, by the branch it takes. */
  predicate Returns(s: State, id: int, allowed: bool, ok: bool) {
    id in s.rows &&
    (FoldsToDelivered(s.rows[id].status) || (allowed && (ExistingDelivery(s.rows, id, s.rows[id].url).Some? || ok)))
  }

  /** A call returns true exactly when it leaves its resource delivered, and it leaves no call
      and no lock behind. */
  lemma ReturnsDelivered(s: State, c: int, id: int, loop: int, allowed: bool, ok: bool, message: string, now: int)
    requires Enabled(s, Load(c, id, loop))
    requires id in s.rows ==> Enabled(Step(s, Load(c, id, loop)), Enter(c, allowed, now))
    ensures var t := Alone(s, c, id, loop, allowed, ok, message, now);
            && t.calls == s.calls && t.locks == s.locks
            && (Returns(s, id, allowed, ok) <==> id in t.rows && FoldsToDelivered(t.rows[id].status))
  {
    StatusFolds(message);
    hide DedupeKey, ExistingDelivery, FoldsToDelivered, FailedStatus;
    if id in s.rows {
      var loaded := Step(s, Load(c, id, loop));
      var entered := Entered(loaded, c, allowed, now);
      if c in entered.calls {
        PushedAlone(loaded, c, allowed, ok, message, now);
        assert loaded.calls - {c} == s.calls;
      } else {
        assert entered.calls == s.calls;
      }
    }
  }

  lemma PushedAlone(s: State, c: int, allowed: bool, ok: bool, message: string, now: int)
    requires Enabled(s, Enter(c, allowed, now)) && c in Entered(s, c, allowed, now).calls
    ensures var t := Finished(Entered(s, c, allowed, now), c, ok, message, now); var id := s.calls[c].id;
            && t.calls == s.calls - {c} && t.locks == s.locks
            && t.rows == if id in s.rows then s.rows[id := Recorded(s.rows[id], ok, message, now)] else s.rows
  {
    hide DedupeKey, ExistingDelivery, FoldsToDelivered, Recorded;
    var lock := LockOf(s.calls[c]);
    if lock.Some? {
      assert s.locks[lock.value := c] - {lock.value} == s.locks;
    }
  }

  lemma LowerDelivered()
    ensures Lower(DELIVERED) == DELIVERED
  {
  }

  lemma StatusFolds(message: string)
    ensures FoldsToDelivered(DELIVERED) && !FoldsToDelivered("skipped") && !FoldsToDelivered(FailedStatus(message))
  {
    LowerDelivered();
    hide Classify;
    assert |Lower("skipped")| == 7;
    assert |Lower(FailedStatus(message))| == |FailedStatus(message)| > 9;
  }

  /** What an undisturbed call leaves of its row: nothing new if it was delivered; skipped if it is not needed;
      delivered, keeping its count, if it has a delivered twin; else the outcome of its push. */
  lemma CallOutcome(s: State, c: int, id: int, loop: int, allowed: bool, ok: bool, message: string, now: int)
    requires id in s.rows && c !in s.calls
    ensures id in Alone(s, c, id, loop, allowed, ok, message, now).rows
    ensures var row, left := s.rows[id], Alone(s, c, id, loop, allowed, ok, message, now).rows[id];
            left == if Lower(row.status) == "delivered" then row
                    else if !allowed then Row(row.url, "skipped", row.retryCount, Some(SKIP_ERROR), now)
                    else if ExistingDelivery(s.rows, id, row.url).Some? then
                      Row(row.url, "delivered", row.retryCount, None, now)
                    else if ok then Row(row.url, "delivered", 0, None, now)
                    else Row(row.url, FailedStatus(message), row.retryCount + 1, Some(Truncated(message)), now)
  {
    LowerDelivered();
    hide DedupeKey, ExistingDelivery, FailedStatus, Truncated, LockOf, Lower;
    var row := s.rows[id];
    var loaded := Step(s, Load(c, id, loop));
    assert loaded.calls[c] == Waiting(id, row, loop) && loaded.rows == s.rows;
    var entered := Entered(loaded, c, allowed, now);
    assert row.status == DELIVERED ==> FoldsToDelivered(row.status);
    assert c in entered.calls ==> entered.rows == s.rows;
  }

  /** The first attempt on a new link that is needed and has no delivered twin: the row is delivered without a
      trace, or has failed once with its error. */
  lemma FirstAttempt(s: State, t: State, c: int, id: int, url: string, loop: int, ok: bool, message: string, now: int)
    requires id !in s.rows && t == Step(s, Insert(id, url, now)) && c !in t.calls
    requires ExistingDelivery(t.rows, id, url).None?
    ensures id in t.rows && id in Alone(t, c, id, loop, true, ok, message, now).rows
    ensures Alone(t, c, id, loop, true, ok, message, now).rows[id]
            == if ok then Row(url, "delivered", 0, None, now)
               else Row(url, FailedStatus(message), 1, Some(Truncated(message)), now)
  {
    assert Lower("pending") != "delivered" by { assert |Lower("pending")| == 7 && |"delivered"| == 9; }
    assert t.rows[id] == Row(url, "pending", 0, None, now);
    hide *;
    CallOutcome(t, c, id, loop, true, ok, message, now);
  }
}
