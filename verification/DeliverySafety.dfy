/** What holds of all runs of the delivery protocol, and exactly when. */
module DeliverySafety {
  import opened Delivery
  import opened DeliveryState
  import opened IntSets
  import opened PyText
  import opened ShareLinks

  // ------------------------------------------------------- what is promised

  /** URLs never change, and a delivered row stays delivered. */
  ghost predicate Keeps(s: State, t: State) {
    forall id :: id in s.rows ==>
      id in t.rows && t.rows[id].url == s.rows[id].url && (Delivered(s, id) ==> Delivered(t, id))
  }

  /** No key has been pushed successfully more than once. */
  predicate PushedOnce(s: State) { forall p, q :: 0 <= p < q < |s.pushed| ==> s.pushed[p].0 != s.pushed[q].0 }

  /** Whatever step comes next, it undoes no delivery and pushes no key again. */
  ghost predicate Safe(s: State) {
    forall a :: Enabled(s, a) ==> Keeps(s, Step(s, a)) && PushedOnce(Step(s, a))
  }

  /** No call enters its lock, so no push begins. */
  predicate NoEntry(run: seq<Action>) { forall i :: 0 <= i < |run| ==> !run[i].Enter? }

  /** However the pushes under way end, and whatever else happens before another call enters, every
      next step is safe. */
  ghost predicate Settles(s: State) {
    forall run :: ValidRun(s, run) && NoEntry(run) ==> Safe(Exec(s, run))
  }

  // ------------------------------------------------------------ conditions

  /** No call pushes a row that is already delivered. */
  ghost predicate NoStalePush(s: State) {
    forall c :: c in s.calls && s.calls[c].Pushing? ==> !Delivered(s, s.calls[c].id)
  }

  /** No call pushes a key that has been pushed. */
  ghost predicate NoRepeatedPush(s: State) {
    forall c, p :: c in s.calls && s.calls[c].Pushing? && 0 <= p < |s.pushed| ==>
        KeyOf(s.calls[c]) != Some(s.pushed[p].0)
  }

  ghost predicate Guarded(s: State) { NoStalePush(s) && NoRepeatedPush(s) }

  /** No two pushes of one key are under way at once. */
  ghost predicate KeysApart(s: State) {
    forall c, d :: c in s.calls && d in s.calls && c != d && s.calls[c].Pushing? && s.calls[d].Pushing? ==>
                     KeyOf(s.calls[c]).Some? ==> KeyOf(s.calls[c]) != KeyOf(s.calls[d])
  }

  /** No two pushes of one row are under way at once. */
  ghost predicate RowsApart(s: State) {
    forall c, d :: c in s.calls && d in s.calls && c != d && s.calls[c].Pushing? && s.calls[d].Pushing? ==>
                     s.calls[c].id != s.calls[d].id
  }

  ghost predicate Apart(s: State) { KeysApart(s) && RowsApart(s) }

  /** The same, of rows without a key. */
  ghost predicate KeylessApart(s: State) {
    forall c, d :: c in s.calls && d in s.calls && c != d && s.calls[c].Pushing? && s.calls[d].Pushing? ==>
                     KeyOf(s.calls[c]).None? ==> s.calls[c].id != s.calls[d].id
  }

  /** A call that enters to push, which it decides on the row as loaded, finds its row undelivered. */
  ghost predicate FreshEntry(s: State, a: Action) {
    a.Enter? && Enabled(s, a) && a.call in Step(s, a).calls ==> !Delivered(s, s.calls[a.call].id)
  }

  ghost predicate FreshEntries(s: State, run: seq<Action>)
    requires ValidRun(s, run)
    decreases |run|
  {
    run != [] ==> FreshEntry(s, run[0]) && FreshEntries(Step(s, run[0]), run[1..])
  }

  /** Calls of one key run on one event loop. */
  ghost predicate OneLoopPerKey(s: State) {
    forall c, d :: c in s.calls && d in s.calls && KeyOf(s.calls[c]).Some? && KeyOf(s.calls[c]) == KeyOf(s.calls[d]) ==>
                     s.calls[c].loop == s.calls[d].loop
  }

  /** No two calls in flight work on one resource. */
  ghost predicate Exclusive(s: State) {
    forall c, d :: c in s.calls && d in s.calls && c != d ==> s.calls[c].id != s.calls[d].id
  }

  // --------------------------------------------------- facts about single steps

  /** A call's row is there, with the URL it loaded. */
  ghost predicate UrlsKept(s: State) {
    forall c :: c in s.calls ==> s.calls[c].id in s.rows && s.rows[s.calls[c].id].url == s.calls[c].row.url
  }

  lemma RecordedFacts(row: Row, ok: bool, message: string, now: int)
    ensures Recorded(row, ok, message, now).url == row.url
    ensures Recorded(row, ok, message, now).status == DELIVERED <==> ok
  {
    hide Classify;
    assert |FailedStatus(message)| > 9;
    hide FailedStatus;
  }

  lemma GivenUpFacts(t: Table, id: int, why: Setback, now: int)
    ensures var u := GivenUp(t, id, why, now);
            && u.Keys == t.Keys
            && forall j :: j in t ==> u[j].url == t[j].url && (u[j].status == DELIVERED <==> t[j].status == DELIVERED)
  {
    assert |"pending"| == 7 && |"failed"| == 6 && |"delivery_failed_retryable"| == 25 && |DELIVERED| == 9;
  }

  /** Steps other than the end of a push undo nothing and push nothing. */
  lemma OtherSteps(s: State, a: Action)
    requires Enabled(s, a) && !a.Finish?
    ensures Keeps(s, Step(s, a)) && Step(s, a).pushed == s.pushed
  {
    hide DedupeKey, ExistingDelivery, FoldsToDelivered;
    if a.Fail? { GivenUpFacts(s.rows, a.id, a.why, a.now); }
    hide GivenUp;
  }

  /** The end of a push undoes a delivery exactly if it failed and its row was delivered. */
  lemma FinishStep(s: State, c: int, ok: bool, message: string, now: int)
    requires c in s.calls
    ensures Keeps(s, Finished(s, c, ok, message, now)) <==> ok || !Delivered(s, s.calls[c].id)
    ensures Finished(s, c, ok, message, now).pushed
            == if ok && KeyOf(s.calls[c]).Some? then s.pushed + [(KeyOf(s.calls[c]).value, s.calls[c].id)] else s.pushed
  {
    hide DedupeKey;
    var id := s.calls[c].id;
    if id in s.rows { RecordedFacts(s.rows[id], ok, message, now); }
    hide Recorded;
  }

  lemma PushMore(s: State, t: State, push: (Key, int))
    requires PushedOnce(s) && t.pushed == s.pushed + [push]
    ensures PushedOnce(t) <==> forall p :: 0 <= p < |s.pushed| ==> s.pushed[p].0 != push.0
  {
    assert t.pushed[|s.pushed|] == push && forall p :: 0 <= p < |s.pushed| ==> t.pushed[p] == s.pushed[p];
  }

  /** The next step is safe, whichever it is, exactly if no call pushes a delivered row or a pushed key. */
  lemma SafeStepExactly(s: State)
    requires PushedOnce(s)
    ensures Safe(s) <==> Guarded(s)
  {
    if Guarded(s) {
      forall a | Enabled(s, a) ensures Keeps(s, Step(s, a)) && PushedOnce(Step(s, a)) { GuardedStep(s, a); }
    }
    if Safe(s) {
      forall c | c in s.calls && s.calls[c].Pushing?
        ensures !Delivered(s, s.calls[c].id)
        ensures forall p :: 0 <= p < |s.pushed| ==> KeyOf(s.calls[c]) != Some(s.pushed[p].0)
      {
        SafePush(s, c);
      }
    }
  }

  lemma GuardedStep(s: State, a: Action)
    requires PushedOnce(s) && Guarded(s) && Enabled(s, a)
    ensures Keeps(s, Step(s, a)) && PushedOnce(Step(s, a))
  {
    hide KeyOf, Entered, Finished, Keeps, GivenUp;
    if a.Finish? {
      FinishStep(s, a.call, a.ok, a.message, a.now);
      if a.ok && KeyOf(s.calls[a.call]).Some? {
        PushMore(s, Step(s, a), (KeyOf(s.calls[a.call]).value, s.calls[a.call].id));
      }
    } else {
      OtherSteps(s, a);
    }
  }

  lemma SafePush(s: State, c: int)
    requires PushedOnce(s) && Safe(s) && c in s.calls && s.calls[c].Pushing?
    ensures !Delivered(s, s.calls[c].id)
    ensures forall p :: 0 <= p < |s.pushed| ==> KeyOf(s.calls[c]) != Some(s.pushed[p].0)
  {
    hide KeyOf, Finished, Keeps, Entered, GivenUp;
    assert Enabled(s, Finish(c, false, "", 0)) && Enabled(s, Finish(c, true, "", 0));
    FinishStep(s, c, false, "", 0);
    FinishStep(s, c, true, "", 0);
    if KeyOf(s.calls[c]).Some? {
      PushMore(s, Finished(s, c, true, "", 0), (KeyOf(s.calls[c]).value, s.calls[c].id));
    }
  }

  // ------------------------------------------------------------------- runs

  /** At every point of a run: each next step is safe exactly if the state is guarded. */
  lemma {:induction false} SafeRunExactly(s: State, run: seq<Action>)
    requires PushedOnce(s) && ValidRun(s, run)
    ensures Always(Safe, s, run) <==> Always(Guarded, s, run)
    decreases |run|
  {
    SafeStepExactly(s);
    hide Step, Enabled, Guarded;
    if run != [] && Safe(s) {
      assert PushedOnce(Step(s, run[0]));
      SafeRunExactly(Step(s, run[0]), run[1..]);
    }
  }

  lemma KeepsSelf(s: State)
    ensures Keeps(s, s)
  {
  }

  lemma KeepsTrans(s: State, t: State, u: State)
    requires Keeps(s, t) && Keeps(t, u)
    ensures Keeps(s, u)
  {
  }

  /** Everything pushed is delivered, under the key it was pushed for. */
  ghost predicate PushesDelivered(s: State) {
    forall p :: 0 <= p < |s.pushed| ==>
      Delivered(s, s.pushed[p].1) && DedupeKey(s.rows[s.pushed[p].1].url) == Some(s.pushed[p].0)
  }

  lemma UrlsStep(s: State, a: Action)
    requires UrlsKept(s) && Enabled(s, a)
    ensures UrlsKept(Step(s, a))
  {
    hide DedupeKey, ExistingDelivery, FoldsToDelivered, FailedStatus;
    if a.Fail? { GivenUpFacts(s.rows, a.id, a.why, a.now); }
    hide GivenUp;
  }

  lemma PushesStep(s: State, a: Action)
    requires UrlsKept(s) && PushesDelivered(s) && Enabled(s, a) && Keeps(s, Step(s, a))
    ensures PushesDelivered(Step(s, a))
  {
    hide DedupeKey, Entered, GivenUp;
    if a.Finish? {
      FinishStep(s, a.call, a.ok, a.message, a.now);
      RecordedFacts(s.rows[s.calls[a.call].id], a.ok, a.message, a.now);
      hide Recorded;
    } else {
      OtherSteps(s, a);
    }
  }

  /** A step undoes no delivery if no call pushes a delivered row. */
  lemma KeepsStep(s: State, a: Action)
    requires NoStalePush(s) && Enabled(s, a)
    ensures Keeps(s, Step(s, a))
  {
    hide KeyOf, Entered, Finished, Keeps, GivenUp;
    if a.Finish? {
      FinishStep(s, a.call, a.ok, a.message, a.now);
    } else {
      OtherSteps(s, a);
    }
  }

  lemma {:induction false} FreshRun(s: State, run: seq<Action>)
    requires UrlsKept(s) && PushesDelivered(s) && ValidRun(s, run) && Always(NoStalePush, s, run)
    ensures var t := Exec(s, run); Keeps(s, t) && UrlsKept(t) && PushesDelivered(t)
    decreases |run|
  {
    hide Step, Enabled, NoStalePush, Keeps, UrlsKept, PushesDelivered;
    if run == [] {
      KeepsSelf(s);
    } else {
      var next := Step(s, run[0]);
      KeepsStep(s, run[0]);
      UrlsStep(s, run[0]);
      PushesStep(s, run[0]);
      FreshRun(next, run[1..]);
      KeepsTrans(s, next, Exec(s, run));
    }
  }

  lemma InitialFacts(s: State)
    requires Initial(s)
    ensures UrlsKept(s) && PushedOnce(s) && PushesDelivered(s) && LocksHeld(s) && KeysClear(s)
  {
  }

  lemma {:induction false} RunSplits(p: State -> bool, s: State, run: seq<Action>, next: seq<Action>)
    requires ValidRun(s, run + next) && Always(p, s, run + next)
    ensures ValidRun(s, run) && Always(p, s, run)
    ensures ValidRun(Exec(s, run), next) && Always(p, Exec(s, run), next)
    ensures Exec(s, run + next) == Exec(Exec(s, run), next)
    decreases |run|
  {
    hide Step, Enabled;
    if run == [] {
      assert run + next == next;
    } else {
      assert (run + next)[1..] == run[1..] + next;
      RunSplits(p, Step(s, run[0]), run[1..], next);
    }
  }

  /** As long as no call pushes a delivered row, what was pushed is delivered under its key, and a
      delivered resource is delivered at every later point. */
  lemma DeliveredForever(s: State, run: seq<Action>, next: seq<Action>, id: int)
    requires Initial(s) && ValidRun(s, run + next) && Always(NoStalePush, s, run + next)
    ensures ValidRun(s, run) && PushesDelivered(Exec(s, run))
    ensures Delivered(Exec(s, run), id) ==> Delivered(Exec(s, run + next), id)
  {
    RunSplits(NoStalePush, s, run, next);
    InitialFacts(s);
    FreshRun(s, run);
    FreshRun(Exec(s, run), next);
  }

  // --------------------------------------------------------------- the locks

  /** A pushing call holds its lock, and only pushing calls hold locks. */
  ghost predicate LocksHeld(s: State) {
    && (forall c :: c in s.calls && s.calls[c].Pushing? && LockOf(s.calls[c]).Some? ==>
          LockOf(s.calls[c]).value in s.locks && s.locks[LockOf(s.calls[c]).value] == c)
    && (forall k :: k in s.locks ==>
          s.locks[k] in s.calls && s.calls[s.locks[k]].Pushing? && LockOf(s.calls[s.locks[k]]) == Some(k))
  }

  /** The call as it pushes. */
  function Started(call: Call): Call { Pushing(call.id, call.row, call.loop) }

  /** A call that enters leaves with its lock free, or starts its push with its lock held; other rows stay. */
  lemma EnteredShape(s: State, c: int, allowed: bool, now: int)
    requires c in s.calls
    ensures var t, call := Entered(s, c, allowed, now), s.calls[c];
            || (t.calls == s.calls - {c} && t.locks == s.locks)
            || (&& t.calls == s.calls[c := Started(call)] && t.rows == s.rows && !FoldsToDelivered(call.row.status)
                && t.locks == if LockOf(call).Some? then s.locks[LockOf(call).value := c] else s.locks)
    ensures var t := Entered(s, c, allowed, now);
            t.rows.Keys == s.rows.Keys && forall j :: j in s.rows && j != s.calls[c].id ==> t.rows[j] == s.rows[j]
  {
    hide LockOf, ExistingDelivery, FoldsToDelivered;
  }

  lemma StartedLock(call: Call)
    ensures LockOf(Started(call)) == LockOf(call) && KeyOf(Started(call)) == KeyOf(call)
  {
  }

  lemma LeaveLocks(s: State, t: State, c: int)
    requires LocksHeld(s) && c in s.calls && s.calls[c].Waiting? && t.calls == s.calls - {c} && t.locks == s.locks
    ensures LocksHeld(t)
  {
    hide LockOf;
  }

  lemma StartLocks(s: State, t: State, c: int, call: Call)
    requires LocksHeld(s) && c in s.calls && s.calls[c].Waiting? && call.Pushing? && t.calls == s.calls[c := call]
    requires LockOf(call).Some? ==> LockOf(call).value !in s.locks
    requires t.locks == if LockOf(call).Some? then s.locks[LockOf(call).value := c] else s.locks
    ensures LocksHeld(t)
  {
    hide LockOf;
  }

  lemma EndLocks(s: State, t: State, c: int)
    requires LocksHeld(s) && c in s.calls && s.calls[c].Pushing? && t.calls == s.calls - {c}
    requires t.locks == if LockOf(s.calls[c]).Some? then s.locks - {LockOf(s.calls[c]).value} else s.locks
    ensures LocksHeld(t)
  {
    hide LockOf;
  }

  lemma OtherLocks(s: State, a: Action)
    requires LocksHeld(s) && Enabled(s, a) && (a.Load? || a.Insert? || a.Fail?)
    ensures LocksHeld(Step(s, a))
  {
    hide LockOf, GivenUp;
  }

  lemma LocksStep(s: State, a: Action)
    requires LocksHeld(s) && Enabled(s, a)
    ensures LocksHeld(Step(s, a))
  {
    hide LocksHeld, LockOf, KeyOf, Entered, Recorded, GivenUp;
    if a.Enter? {
      EnteredShape(s, a.call, a.allowed, a.now);
      StartedLock(s.calls[a.call]);
      if Step(s, a).calls == s.calls - {a.call} {
        if Step(s, a).locks == s.locks { LeaveLocks(s, Step(s, a), a.call); }
      }
      if Step(s, a).calls == s.calls[a.call := Started(s.calls[a.call])] {
        StartLocks(s, Step(s, a), a.call, Started(s.calls[a.call]));
      }
    } else if a.Finish? {
      EndLocks(s, Step(s, a), a.call);
    } else {
      OtherLocks(s, a);
    }
  }

  lemma {:induction false} LocksRun(s: State, run: seq<Action>)
    requires LocksHeld(s) && ValidRun(s, run)
    ensures LocksHeld(Exec(s, run))
    decreases |run|
  {
    hide Step, Enabled, LocksHeld;
    if run != [] {
      LocksStep(s, run[0]);
      LocksRun(Step(s, run[0]), run[1..]);
    }
  }

  /** The locks never block the protocol: in every run, as long as a call is in flight, one can go on. */
  lemma NeverStuck(s: State, run: seq<Action>)
    requires Initial(s) && ValidRun(s, run)
    ensures var t := Exec(s, run);
            t.calls != map[] ==>
              exists c :: c in t.calls && (Enabled(t, Enter(c, true, 0)) || Enabled(t, Finish(c, true, "", 0)))
  {
    InitialFacts(s);
    LocksRun(s, run);
    hide *;
    if Exec(s, run).calls != map[] { var c := GoesOn(Exec(s, run)); }
  }

  lemma GoesOn(s: State) returns (c: int)
    requires LocksHeld(s) && s.calls != map[]
    ensures c in s.calls && (Enabled(s, Enter(c, true, 0)) || Enabled(s, Finish(c, true, "", 0)))
  {
    c := Member(s.calls.Keys);
    if s.calls[c].Waiting? {
      if LockOf(s.calls[c]).Some? && LockOf(s.calls[c]).value in s.locks {
        c := s.locks[LockOf(s.calls[c]).value];
        assert c in s.calls && s.calls[c].Pushing?;
        hide *;
        PushingEnabled(s, c, 0);
      } else {
        hide *;
        WaitingEnabled(s, c, 0);
      }
    } else {
      hide *;
      PushingEnabled(s, c, 0);
    }
  }

  // ------------------------------------------------------------ keys on one loop

  /** While a call pushes, no delivered row has its key. */
  ghost predicate KeysClear(s: State) {
    forall c, j :: c in s.calls && s.calls[c].Pushing? && KeyOf(s.calls[c]).Some? && Delivered(s, j) ==>
                     DedupeKey(s.rows[j].url) != KeyOf(s.calls[c])
  }

  ghost predicate Inv(s: State) { UrlsKept(s) && KeysClear(s) && PushedOnce(s) && PushesDelivered(s) }

  /** Starting a push: no row of its key is delivered, unless it is its own. */
  lemma StartsClear(s: State, c: int)
    requires c in s.calls && KeyOf(s.calls[c]).Some?
    requires ExistingDelivery(s.rows, s.calls[c].id, s.calls[c].row.url).None?
    ensures forall j :: Delivered(s, j) && j != s.calls[c].id ==> DedupeKey(s.rows[j].url) != KeyOf(s.calls[c])
  {
    FastPathAgrees(s.rows, s.calls[c].id, s.calls[c].row.url);
    hide DedupeKey, ExistingDelivery;
    forall j | Delivered(s, j) && j != s.calls[c].id ensures DedupeKey(s.rows[j].url) != KeyOf(s.calls[c]) {
      assert j !in Twins(s.rows, s.calls[c].id, KeyOf(s.calls[c]).value);
    }
  }

  /** What a call does that starts its push. */
  lemma EnteredPushing(s: State, c: int, now: int)
    requires c in s.calls && !FoldsToDelivered(s.calls[c].row.status)
    requires ExistingDelivery(s.rows, s.calls[c].id, s.calls[c].row.url).None?
    ensures var t, call := Entered(s, c, true, now), s.calls[c];
            && t.rows == s.rows && t.pushed == s.pushed
            && t.calls == s.calls[c := Pushing(call.id, call.row, call.loop)]
            && t.locks == if LockOf(call).Some? then s.locks[LockOf(call).value := c] else s.locks
  {
    hide DedupeKey, ExistingDelivery, FoldsToDelivered;
  }

  lemma PushClear(s: State, t: State, c: int, call: Call)
    requires KeysClear(s) && t.rows == s.rows && t.calls == s.calls[c := call]
    requires KeyOf(call).Some? ==> forall j :: Delivered(s, j) ==> DedupeKey(s.rows[j].url) != KeyOf(call)
    ensures KeysClear(t)
  {
    hide KeyOf, DedupeKey;
    assert forall j :: Delivered(t, j) <==> Delivered(s, j);
  }

  lemma EnterPushesClear(s: State, c: int, now: int)
    requires KeysClear(s) && c in s.calls && s.calls[c].Waiting?
    requires !FoldsToDelivered(s.calls[c].row.status)
    requires ExistingDelivery(s.rows, s.calls[c].id, s.calls[c].row.url).None?
    requires NoStalePush(Entered(s, c, true, now))
    ensures KeysClear(Entered(s, c, true, now))
  {
    var call := s.calls[c];
    var pushing := Pushing(call.id, call.row, call.loop);
    EnteredPushing(s, c, now);
    OwnNotDelivered(s, Entered(s, c, true, now), c, pushing);
    assert KeyOf(pushing) == KeyOf(call);
    if KeyOf(call).Some? { StartsClear(s, c); }
    hide *;
    PushClear(s, Entered(s, c, true, now), c, pushing);
  }

  lemma OwnNotDelivered(s: State, t: State, c: int, call: Call)
    requires NoStalePush(t) && t.rows == s.rows && t.calls == s.calls[c := call] && call.Pushing?
    ensures !Delivered(s, call.id)
  {
    assert t.calls[c] == call;
  }

  /** What a call does that finds a delivered twin. */
  lemma EnteredDuplicate(s: State, c: int, now: int)
    requires UrlsKept(s) && c in s.calls && !FoldsToDelivered(s.calls[c].row.status)
    requires ExistingDelivery(s.rows, s.calls[c].id, s.calls[c].row.url).Some?
    ensures var t, id := Entered(s, c, true, now), s.calls[c].id;
            t.calls == s.calls - {c} && t.rows == s.rows[id := Duplicated(s.rows[id], now)]
  {
    hide DedupeKey, ExistingDelivery, FoldsToDelivered;
  }

  /** A call that leaves as a duplicate has a delivered twin, so nobody pushes its key. */
  lemma EnterDuplicateClear(s: State, c: int, now: int)
    requires UrlsKept(s) && KeysClear(s) && c in s.calls && s.calls[c].Waiting?
    requires !FoldsToDelivered(s.calls[c].row.status)
    requires ExistingDelivery(s.rows, s.calls[c].id, s.calls[c].row.url).Some?
    ensures KeysClear(Entered(s, c, true, now))
  {
    var call := s.calls[c];
    FastPathAgrees(s.rows, call.id, call.row.url);
    EnteredDuplicate(s, c, now);
    var twin := ExistingDelivery(s.rows, call.id, call.row.url).value;
    var row := Duplicated(s.rows[call.id], now);
    assert Delivered(s, twin) && DedupeKey(s.rows[twin].url) == DedupeKey(row.url) && call.id in s.rows;
    assert row.url == s.rows[call.id].url;
    hide *;
    DuplicateClear(s, Entered(s, c, true, now), c, call.id, row, twin);
  }

  /** Delivering a row whose key has been delivered disturbs no push. */
  lemma DuplicateClear(s: State, t: State, c: int, id: int, row: Row, twin: int)
    requires KeysClear(s) && t.calls == s.calls - {c} && id in s.rows && t.rows == s.rows[id := row]
    requires Delivered(s, twin) && DedupeKey(s.rows[twin].url) == DedupeKey(row.url)
    ensures KeysClear(t)
  {
    hide KeyOf, DedupeKey;
    forall d, j | d in t.calls && t.calls[d].Pushing? && KeyOf(t.calls[d]).Some? && Delivered(t, j)
      ensures DedupeKey(t.rows[j].url) != KeyOf(t.calls[d])
    {
      if j != id { assert Delivered(s, j); }
    }
  }

  lemma EnterLeavesClear(s: State, c: int, allowed: bool, now: int)
    requires UrlsKept(s) && KeysClear(s) && c in s.calls && s.calls[c].Waiting?
    requires FoldsToDelivered(s.calls[c].row.status) || !allowed
    ensures KeysClear(Entered(s, c, allowed, now))
  {
    hide DedupeKey, ExistingDelivery, FoldsToDelivered;
    var t := Entered(s, c, allowed, now);
    assert forall j :: Delivered(t, j) ==> Delivered(s, j) && t.rows[j].url == s.rows[j].url;
  }

  /** What the end of a push changes. */
  lemma FinishEffect(s: State, c: int, ok: bool, message: string, now: int)
    requires c in s.calls
    ensures var t := Finished(s, c, ok, message, now);
            && t.calls == s.calls - {c}
            && t.rows.Keys == s.rows.Keys && (forall j :: j in s.rows ==> t.rows[j].url == s.rows[j].url)
            && forall j :: j != s.calls[c].id ==> (Delivered(t, j) <==> Delivered(s, j))
    ensures ok && s.calls[c].id in s.rows ==> Delivered(Finished(s, c, ok, message, now), s.calls[c].id)
  {
    if s.calls[c].id in s.rows { RecordedFacts(s.rows[s.calls[c].id], ok, message, now); }
    hide KeyOf, LockOf, Recorded;
  }

  lemma EndClear(s: State, t: State, c: int)
    requires KeysClear(s) && KeysApart(s) && c in s.calls && s.calls[c].Pushing? && t.calls == s.calls - {c}
    requires t.rows.Keys == s.rows.Keys && forall j :: j in s.rows ==> t.rows[j].url == s.rows[j].url
    requires forall j :: j != s.calls[c].id ==> (Delivered(t, j) <==> Delivered(s, j))
    requires s.calls[c].id in s.rows && DedupeKey(s.rows[s.calls[c].id].url) == KeyOf(s.calls[c])
    ensures KeysClear(t)
  {
    hide DedupeKey, KeyOf;
    forall d, j | d in t.calls && t.calls[d].Pushing? && KeyOf(t.calls[d]).Some? && Delivered(t, j)
      ensures DedupeKey(t.rows[j].url) != KeyOf(t.calls[d])
    {
      if j == s.calls[c].id {
        assert d != c && KeyOf(s.calls[d]) != KeyOf(s.calls[c]);
      } else {
        assert Delivered(s, j);
      }
    }
  }

  lemma FinishClear(s: State, c: int, ok: bool, message: string, now: int)
    requires UrlsKept(s) && KeysClear(s) && KeysApart(s) && c in s.calls && s.calls[c].Pushing?
    ensures KeysClear(Finished(s, c, ok, message, now))
  {
    assert s.calls[c].id in s.rows && DedupeKey(s.rows[s.calls[c].id].url) == KeyOf(s.calls[c]) by {
      hide DedupeKey;
    }
    hide *;
    FinishEffect(s, c, ok, message, now);
    EndClear(s, Finished(s, c, ok, message, now), c);
  }

  lemma ClearStep(s: State, a: Action)
    requires UrlsKept(s) && KeysClear(s) && KeysApart(s) && Enabled(s, a) && NoStalePush(Step(s, a))
    ensures KeysClear(Step(s, a))
  {
    hide UrlsKept, KeysApart, ExistingDelivery, FoldsToDelivered, NoStalePush, Entered, Finished;
    if a.Enter? {
      var call := s.calls[a.call];
      hide KeysClear;
      if FoldsToDelivered(call.row.status) || !a.allowed {
        EnterLeavesClear(s, a.call, a.allowed, a.now);
      } else if ExistingDelivery(s.rows, call.id, call.row.url).Some? {
        EnterDuplicateClear(s, a.call, a.now);
      } else {
        EnterPushesClear(s, a.call, a.now);
      }
    } else if a.Finish? {
      hide KeysClear;
      FinishClear(s, a.call, a.ok, a.message, a.now);
    } else {
      QuietClear(s, a);
    }
  }

  /** Loads, insertions and outside failures deliver nothing. */
  lemma QuietClear(s: State, a: Action)
    requires KeysClear(s) && Enabled(s, a) && (a.Load? || a.Insert? || a.Fail?)
    ensures KeysClear(Step(s, a))
  {
    hide DedupeKey;
    if a.Fail? { GivenUpFacts(s.rows, a.id, a.why, a.now); }
    hide GivenUp;
    var t := Step(s, a);
    assert forall j :: Delivered(t, j) ==> Delivered(s, j) && t.rows[j].url == s.rows[j].url;
  }

  /** Under the invariant, a pushed key is delivered, so nobody pushes it again. */
  lemma ClearIsGuarded(s: State)
    requires KeysClear(s) && PushesDelivered(s) && NoStalePush(s)
    ensures Guarded(s)
  {
    hide DedupeKey, KeyOf;
  }

  lemma InvStep(s: State, a: Action)
    requires Inv(s) && KeysApart(s) && NoStalePush(s) && Enabled(s, a) && NoStalePush(Step(s, a))
    ensures Inv(Step(s, a))
  {
    ClearIsGuarded(s);
    hide Step, Enabled, UrlsKept, KeysClear, PushedOnce, PushesDelivered, NoStalePush, KeysApart, Guarded;
    GuardedStep(s, a);
    UrlsStep(s, a);
    ClearStep(s, a);
    PushesStep(s, a);
  }

  /** On any loops: where no two pushes of a key overlap and no call pushes a delivered row, no call
      pushes a key that has been pushed. */
  lemma {:induction false} ApartRun(s: State, run: seq<Action>)
    requires Inv(s) && ValidRun(s, run) && Always(KeysApart, s, run) && Always(NoStalePush, s, run)
    ensures Always(Guarded, s, run) && Inv(Exec(s, run))
    decreases |run|
  {
    ClearIsGuarded(s);
    if run != [] {
      assert NoStalePush(Step(s, run[0]));
      hide Step, Enabled, Inv, KeysApart, NoStalePush, Guarded;
      InvStep(s, run[0]);
      ApartRun(Step(s, run[0]), run[1..]);
    }
  }

  /** On any loops, where no two pushes of a key overlap and no call pushes a delivered row, each key
      is pushed successfully at most once, and what was pushed is delivered under that key. */
  lemma OnePushPerKey(s: State, run: seq<Action>)
    requires Initial(s) && ValidRun(s, run) && Always(KeysApart, s, run) && Always(NoStalePush, s, run)
    ensures PushedOnce(Exec(s, run)) && PushesDelivered(Exec(s, run))
  {
    InitialFacts(s);
    ApartRun(s, run);
  }

  lemma {:induction false} GuardedIsFresh(s: State, run: seq<Action>)
    requires ValidRun(s, run) && Always(Guarded, s, run)
    ensures Always(NoStalePush, s, run)
    decreases |run|
  {
    hide Step, Enabled;
    if run != [] { GuardedIsFresh(Step(s, run[0]), run[1..]); }
  }

  /** On any loops, where no two pushes of a key overlap: every step that a run could take keeps
      `delivered` and pushes no key again exactly if no call ever pushes a delivered row. */
  lemma SafeApartExactly(s: State, run: seq<Action>)
    requires Initial(s) && ValidRun(s, run) && Always(KeysApart, s, run)
    ensures Always(Safe, s, run) <==> Always(NoStalePush, s, run)
  {
    InitialFacts(s);
    SafeRunExactly(s, run);
    hide Always;
    if Always(NoStalePush, s, run) { ApartRun(s, run); }
    if Always(Guarded, s, run) { GuardedIsFresh(s, run); }
  }

  /** Whenever a push is under way, no delivered row has its key. */
  lemma NoPushBesideTwin(s: State, run: seq<Action>, c: int)
    requires Initial(s) && ValidRun(s, run) && Always(KeysApart, s, run) && Always(NoStalePush, s, run)
    requires var t := Exec(s, run); c in t.calls && t.calls[c].Pushing? && KeyOf(t.calls[c]).Some?
    ensures var t := Exec(s, run); forall j :: Delivered(t, j) ==> DedupeKey(t.rows[j].url) != KeyOf(t.calls[c])
  {
    InitialFacts(s);
    ApartRun(s, run);
    hide Exec, KeyOf;
  }

  // --------------------------------------------------------- pushes under way

  lemma EndFresh(s: State, t: State, c: int)
    requires NoStalePush(s) && RowsApart(s) && c in s.calls && s.calls[c].Pushing? && t.calls == s.calls - {c}
    requires forall j :: j != s.calls[c].id ==> (Delivered(t, j) <==> Delivered(s, j))
    ensures NoStalePush(t) && RowsApart(t)
  {
    hide Delivered;
  }

  lemma EndNew(s: State, t: State, c: int)
    requires NoRepeatedPush(s) && KeysApart(s) && c in s.calls && s.calls[c].Pushing? && t.calls == s.calls - {c}
    requires || t.pushed == s.pushed
             || (KeyOf(s.calls[c]).Some? && t.pushed == s.pushed + [(KeyOf(s.calls[c]).value, s.calls[c].id)])
    ensures NoRepeatedPush(t) && KeysApart(t)
  {
    hide KeyOf;
  }

  /** The end of a push, where pushes are apart: the others push neither its row nor its key. */
  lemma FinishApart(s: State, c: int, ok: bool, message: string, now: int)
    requires Guarded(s) && Apart(s) && c in s.calls && s.calls[c].Pushing?
    ensures var t := Finished(s, c, ok, message, now); Guarded(t) && Apart(t)
  {
    hide Finished, KeyOf, NoStalePush, NoRepeatedPush, KeysApart, RowsApart, Delivered, Keeps;
    var t := Finished(s, c, ok, message, now);
    FinishStep(s, c, ok, message, now);
    FinishEffect(s, c, ok, message, now);
    EndFresh(s, t, c);
    EndNew(s, t, c);
  }

  lemma QuietApart(s: State, a: Action)
    requires Guarded(s) && Apart(s) && Enabled(s, a) && (a.Load? || a.Insert? || a.Fail?)
    ensures Guarded(Step(s, a)) && Apart(Step(s, a))
  {
    hide KeyOf;
    if a.Fail? { GivenUpFacts(s.rows, a.id, a.why, a.now); }
    hide GivenUp;
    assert |"pending"| == 7 && |DELIVERED| == 9;
    var t := Step(s, a);
    assert forall j :: Delivered(t, j) ==> Delivered(s, j);
    assert forall d :: d in t.calls && t.calls[d].Pushing? ==> d in s.calls && s.calls[d] == t.calls[d];
  }

  lemma {:induction false} SettlesRun(s: State, run: seq<Action>)
    requires PushedOnce(s) && Guarded(s) && Apart(s) && ValidRun(s, run) && NoEntry(run)
    ensures Safe(Exec(s, run))
    decreases |run|
  {
    if run == [] {
      SafeStepExactly(s);
    } else {
      var a, next := run[0], Step(s, run[0]);
      assert !a.Enter?;
      GuardedStep(s, a);
      hide Guarded, Apart, PushedOnce, Safe, Keeps;
      if a.Finish? {
        hide Finished, Entered, GivenUp;
        FinishApart(s, a.call, a.ok, a.message, a.now);
      } else {
        hide Step;
        QuietApart(s, a);
      }
      hide Enabled, Step;
      SettlesRun(next, run[1..]);
    }
  }

  /** In a state that settles, a push that succeeds leaves the others on other rows and keys. */
  lemma SettledApart(s: State, c: int, d: int)
    requires UrlsKept(s) && PushedOnce(s) && Settles(s) && c in s.calls && d in s.calls && c != d
    requires s.calls[c].Pushing? && s.calls[d].Pushing?
    ensures s.calls[c].id != s.calls[d].id
    ensures KeyOf(s.calls[c]).Some? ==> KeyOf(s.calls[c]) != KeyOf(s.calls[d])
  {
    var t := Finished(s, c, true, "", 0);
    hide *;
    SettledNext(s, c);
    FinishStep(s, c, true, "", 0);
    FinishEffect(s, c, true, "", 0);
    assert d in t.calls && t.calls[d] == s.calls[d] && Delivered(t, s.calls[c].id);
    GuardedApart(t, d);
    if KeyOf(s.calls[c]).Some? {
      assert t.pushed[|s.pushed|] == (KeyOf(s.calls[c]).value, s.calls[c].id);
    }
  }

  lemma GuardedApart(t: State, d: int)
    requires Guarded(t) && d in t.calls && t.calls[d].Pushing?
    ensures !Delivered(t, t.calls[d].id)
    ensures forall p :: 0 <= p < |t.pushed| ==> KeyOf(t.calls[d]) != Some(t.pushed[p].0)
  {
    hide KeyOf;
  }

  lemma SettledSafe(s: State, a: Action)
    requires Settles(s) && Enabled(s, a) && !a.Enter?
    ensures Safe(s) && Safe(Step(s, a))
  {
    hide Step, Enabled, Safe;
    OneStep(s, a);
    assert NoEntry([]) && ValidRun(s, []) && Exec(s, []) == s;
    assert NoEntry([a]);
  }

  lemma SafePushes(s: State, a: Action)
    requires Safe(s) && Enabled(s, a)
    ensures PushedOnce(Step(s, a))
  {
    hide Step, Enabled, Keeps, PushedOnce;
  }

  lemma SettledNext(s: State, c: int)
    requires UrlsKept(s) && PushedOnce(s) && Settles(s) && c in s.calls && s.calls[c].Pushing?
    ensures s.calls[c].id in s.rows && Guarded(Finished(s, c, true, "", 0))
  {
    var a, t := Finish(c, true, "", 0), Finished(s, c, true, "", 0);
    hide *;
    PushingEnabled(s, c, 0);
    FinishIs(s, c);
    SettledSafe(s, a);
    SafePushes(s, a);
    SafeStepExactly(t);
    UrlIn(s, c);
  }

  lemma FinishIs(s: State, c: int)
    requires Enabled(s, Finish(c, true, "", 0))
    ensures Step(s, Finish(c, true, "", 0)) == Finished(s, c, true, "", 0)
  {
    hide Finished;
  }

  lemma UrlIn(s: State, c: int)
    requires UrlsKept(s) && c in s.calls
    ensures s.calls[c].id in s.rows
  {
  }

  lemma SettlesExactly(s: State)
    requires UrlsKept(s) && PushedOnce(s)
    ensures Settles(s) <==> Guarded(s) && Apart(s)
  {
    if Guarded(s) && Apart(s) {
      forall run | ValidRun(s, run) && NoEntry(run) ensures Safe(Exec(s, run)) {
        hide *;
        SettlesRun(s, run);
      }
    }
    if Settles(s) {
      assert NoEntry([]) && ValidRun(s, []) && Exec(s, []) == s;
      SafeStepExactly(s);
      forall c, d | c in s.calls && d in s.calls && c != d && s.calls[c].Pushing? && s.calls[d].Pushing?
        ensures s.calls[c].id != s.calls[d].id
        ensures KeyOf(s.calls[c]).Some? ==> KeyOf(s.calls[c]) != KeyOf(s.calls[d])
      {
        hide *;
        SettledApart(s, c, d);
      }
      assert Apart(s) by { hide KeyOf, Guarded, Settles, Safe; }
    }
  }

  lemma {:induction false} SettlesAlong(s: State, run: seq<Action>)
    requires UrlsKept(s) && PushedOnce(s) && ValidRun(s, run)
    ensures Always(Settles, s, run) <==> Always(Guarded, s, run) && Always(Apart, s, run)
    decreases |run|
  {
    SettlesExactly(s);
    if run != [] && Guarded(s) {
      GuardedStep(s, run[0]);
      UrlsStep(s, run[0]);
      hide Step, Enabled, Guarded, Apart, Settles, UrlsKept, PushedOnce;
      SettlesAlong(Step(s, run[0]), run[1..]);
    }
  }

  lemma {:induction false} ApartKeys(s: State, run: seq<Action>)
    requires ValidRun(s, run) && Always(Apart, s, run)
    ensures Always(KeysApart, s, run)
    decreases |run|
  {
    hide Step, Enabled, KeysApart, RowsApart;
    if run != [] { ApartKeys(Step(s, run[0]), run[1..]); }
  }

  // ----------------------------------------------------------------- fresh entries

  lemma FewerFresh(s: State, t: State, c: int)
    requires NoStalePush(s) && t.calls == s.calls - {c}
    requires forall d :: d in t.calls && t.calls[d].Pushing? && Delivered(t, t.calls[d].id) ==>
               Delivered(s, t.calls[d].id)
    ensures NoStalePush(t)
  {
    hide Delivered;
  }

  lemma StartFresh(s: State, t: State, c: int, call: Call)
    requires NoStalePush(s) && t.rows == s.rows && t.calls == s.calls[c := call] && !Delivered(s, call.id)
    ensures NoStalePush(t)
  {
    assert forall j :: Delivered(t, j) <==> Delivered(s, j);
    hide Delivered;
  }

  /** Nobody pushes a row that has a delivered twin. */
  lemma TwinNotPushed(s: State, id: int, url: string, d: int)
    requires UrlsKept(s) && KeysClear(s) && id in s.rows && s.rows[id].url == url
    requires ExistingDelivery(s.rows, id, url).Some? && d in s.calls && s.calls[d].Pushing?
    ensures s.calls[d].id != id
  {
    FastPathAgrees(s.rows, id, url);
    hide ExistingDelivery, DedupeKey;
    var twin := ExistingDelivery(s.rows, id, url).value;
    assert Delivered(s, twin);
  }

  lemma EnterFresh(s: State, c: int, allowed: bool, now: int)
    requires UrlsKept(s) && KeysClear(s) && NoStalePush(s) && c in s.calls && s.calls[c].Waiting?
    requires c in Entered(s, c, allowed, now).calls ==> !Delivered(s, s.calls[c].id)
    ensures NoStalePush(Entered(s, c, allowed, now))
  {
    var t, call := Entered(s, c, allowed, now), s.calls[c];
    if FoldsToDelivered(call.row.status) || !allowed {
      hide DedupeKey, ExistingDelivery, FoldsToDelivered;
      assert forall j :: Delivered(t, j) ==> Delivered(s, j);
      hide *;
      EnterLeaves(s, c, allowed, now);
      FewerFresh(s, t, c);
    } else if ExistingDelivery(s.rows, call.id, call.row.url).Some? {
      hide *;
      EnterDuplicateFresh(s, c, now);
    } else {
      hide *;
      EnteredPushing(s, c, now);
      StartFresh(s, t, c, Pushing(call.id, call.row, call.loop));
    }
  }

  lemma EnterLeaves(s: State, c: int, allowed: bool, now: int)
    requires c in s.calls && (FoldsToDelivered(s.calls[c].row.status) || !allowed)
    ensures Entered(s, c, allowed, now).calls == s.calls - {c}
  {
    hide DedupeKey, ExistingDelivery, FoldsToDelivered;
  }

  lemma EnterDuplicateFresh(s: State, c: int, now: int)
    requires UrlsKept(s) && KeysClear(s) && NoStalePush(s) && c in s.calls && s.calls[c].Waiting?
    requires !FoldsToDelivered(s.calls[c].row.status)
    requires ExistingDelivery(s.rows, s.calls[c].id, s.calls[c].row.url).Some?
    ensures NoStalePush(Entered(s, c, true, now))
  {
    var t, call := Entered(s, c, true, now), s.calls[c];
    EnteredDuplicate(s, c, now);
    assert call.id in s.rows && s.rows[call.id].url == call.row.url;
    hide KeysClear, UrlsKept, NoStalePush, Entered, ExistingDelivery, FoldsToDelivered;
    forall d | d in s.calls && s.calls[d].Pushing? ensures s.calls[d].id != call.id {
      TwinNotPushed(s, call.id, call.row.url, d);
    }
    FewerFresh(s, t, c);
  }

  /** Where pushes are apart, only the entry of a call can make a push stale. */
  lemma FreshStep(s: State, a: Action)
    requires Inv(s) && Apart(s) && NoStalePush(s) && Enabled(s, a) && FreshEntry(s, a)
    ensures NoStalePush(Step(s, a))
  {
    ClearIsGuarded(s);
    if a.Enter? {
      hide Guarded, Apart, KeysClear, UrlsKept, NoStalePush, Entered;
      EnterFresh(s, a.call, a.allowed, a.now);
    } else if a.Finish? {
      hide Apart, NoStalePush, NoRepeatedPush, Finished;
      FinishApart(s, a.call, a.ok, a.message, a.now);
    } else {
      hide Apart, NoStalePush, NoRepeatedPush, Step;
      QuietApart(s, a);
    }
  }

  lemma {:induction false} FreshAlong(s: State, run: seq<Action>)
    requires Inv(s) && NoStalePush(s) && ValidRun(s, run) && Always(Apart, s, run) && FreshEntries(s, run)
    ensures Always(NoStalePush, s, run)
    decreases |run|
  {
    if run != [] {
      assert KeysApart(s);
      hide Step, Enabled, Inv, Apart, KeysApart, NoStalePush, FreshEntry;
      FreshStep(s, run[0]);
      InvStep(s, run[0]);
      FreshAlong(Step(s, run[0]), run[1..]);
    }
  }

  lemma FreshNeeded(s: State, a: Action)
    requires Enabled(s, a) && NoStalePush(Step(s, a))
    ensures FreshEntry(s, a)
  {
    if a.Enter? && a.call in Step(s, a).calls {
      EnteredShape(s, a.call, a.allowed, a.now);
      hide Entered, LockOf, FoldsToDelivered;
      var t := Step(s, a);
      assert t.calls[a.call] == Started(s.calls[a.call]) && t.rows == s.rows;
    }
  }

  lemma {:induction false} FreshEntered(s: State, run: seq<Action>)
    requires ValidRun(s, run) && Always(NoStalePush, s, run)
    ensures FreshEntries(s, run)
    decreases |run|
  {
    if run != [] {
      assert NoStalePush(Step(s, run[0]));
      hide Step, Enabled, NoStalePush, FreshEntry;
      FreshNeeded(s, run[0]);
      FreshEntered(Step(s, run[0]), run[1..]);
    }
  }

  /** On any loops, where no two pushes of a key or a row overlap: no call ever pushes a delivered row
      exactly if every call that enters to push finds its row undelivered. */
  lemma FreshExactly(s: State, run: seq<Action>)
    requires Initial(s) && ValidRun(s, run) && Always(Apart, s, run)
    ensures Always(NoStalePush, s, run) <==> FreshEntries(s, run)
  {
    InitialFacts(s);
    assert Inv(s) && NoStalePush(s);
    hide *;
    if FreshEntries(s, run) { FreshAlong(s, run); }
    if Always(NoStalePush, s, run) { FreshEntered(s, run); }
  }

  /**
   On any number of loops: at every point of a run, every step is safe however the pushes under
   way end, exactly if no two pushes of a key or a row overlap, and every call that enters to push
   finds its row undelivered.
   */
  lemma SettlesRunExactly(s: State, run: seq<Action>)
    requires Initial(s) && ValidRun(s, run)
    ensures Always(Settles, s, run) <==> Always(Apart, s, run) && FreshEntries(s, run)
  {
    InitialFacts(s);
    assert Inv(s);
    hide *;
    SettlesAlong(s, run) by { InvParts(s); }
    if Always(Apart, s, run) {
      ApartKeys(s, run);
      FreshExactly(s, run);
      if Always(Guarded, s, run) { GuardedIsFresh(s, run); }
      if Always(NoStalePush, s, run) { ApartRun(s, run); }
    }
  }

  lemma InvParts(s: State)
    requires Inv(s)
    ensures UrlsKept(s) && PushedOnce(s)
  {
  }

  // -------------------------------------------------------------- one loop per key

  lemma SameRowSameKey(s: State)
    requires UrlsKept(s) && KeysApart(s)
    ensures RowsApart(s) <==> KeylessApart(s)
  {
    hide DedupeKey;
    if KeylessApart(s) {
      forall c, d | c in s.calls && d in s.calls && c != d && s.calls[c].Pushing? && s.calls[d].Pushing?
        ensures s.calls[c].id != s.calls[d].id
      {
        assert s.calls[c].id == s.calls[d].id ==> KeyOf(s.calls[c]) == KeyOf(s.calls[d]);
        hide KeyOf;
      }
    }
    hide KeyOf;
  }

  lemma {:induction false} KeylessAlong(s: State, run: seq<Action>)
    requires UrlsKept(s) && ValidRun(s, run) && Always(KeysApart, s, run)
    ensures Always(Apart, s, run) <==> Always(KeylessApart, s, run)
    decreases |run|
  {
    SameRowSameKey(s);
    if run != [] {
      UrlsStep(s, run[0]);
      hide Step, Enabled, UrlsKept, KeysApart, RowsApart, KeylessApart;
      KeylessAlong(Step(s, run[0]), run[1..]);
    }
  }

  /** Where the calls of a key share a loop, the locks keep its pushes apart. */
  lemma {:induction false} LocksKeepApart(s: State, run: seq<Action>)
    requires LocksHeld(s) && ValidRun(s, run) && Always(OneLoopPerKey, s, run)
    ensures Always(KeysApart, s, run)
    decreases |run|
  {
    LocksApart(s);
    if run != [] {
      hide Step, Enabled, LocksHeld, OneLoopPerKey, KeysApart;
      LocksStep(s, run[0]);
      LocksKeepApart(Step(s, run[0]), run[1..]);
    }
  }

  lemma LocksApart(s: State)
    requires LocksHeld(s) && OneLoopPerKey(s)
    ensures KeysApart(s)
  {
    hide KeyOf;
  }

  /**
   Where the calls of a key share a loop, the locks do the rest: every step that a run could take
   keeps `delivered` and pushes no key again exactly if no call ever pushes a delivered row.
   */
  lemma SafeOnOneLoopExactly(s: State, run: seq<Action>)
    requires Initial(s) && ValidRun(s, run) && Always(OneLoopPerKey, s, run)
    ensures Always(Safe, s, run) <==> Always(NoStalePush, s, run)
  {
    InitialFacts(s);
    hide *;
    LocksKeepApart(s, run);
    SafeApartExactly(s, run);
  }

  /**
   There, every step is safe however the pushes under way end, exactly if every call that enters to
   push finds its row undelivered, and pushes of a row without a key do not overlap.
   */
  lemma SettlesOnOneLoopExactly(s: State, run: seq<Action>)
    requires Initial(s) && ValidRun(s, run) && Always(OneLoopPerKey, s, run)
    ensures Always(Settles, s, run) <==> FreshEntries(s, run) && Always(KeylessApart, s, run)
  {
    InitialFacts(s);
    hide *;
    LocksKeepApart(s, run);
    KeylessAlong(s, run);
    SettlesRunExactly(s, run);
  }

  /** There, each key is pushed successfully at most once if no call ever pushes a delivered row. */
  lemma OnePushOnOneLoop(s: State, run: seq<Action>)
    requires Initial(s) && ValidRun(s, run) && Always(OneLoopPerKey, s, run) && Always(NoStalePush, s, run)
    ensures PushedOnce(Exec(s, run)) && PushesDelivered(Exec(s, run))
  {
    InitialFacts(s);
    hide *;
    LocksKeepApart(s, run);
    OnePushPerKey(s, run);
  }

  // ----------------------------------------------------- one call per resource

  /** A call's row is delivered exactly if it was when loaded, and delivered rows are not pushed. */
  ghost predicate StatusKept(s: State) {
    && (forall c :: c in s.calls ==> (Delivered(s, s.calls[c].id) <==> s.calls[c].row.status == DELIVERED))
    && (forall c :: c in s.calls && s.calls[c].Pushing? ==> s.calls[c].row.status != DELIVERED)
  }

  lemma StatusStep(s: State, a: Action)
    requires StatusKept(s) && UrlsKept(s) && Exclusive(s) && Enabled(s, a)
    ensures StatusKept(Step(s, a))
  {
    hide DedupeKey, ExistingDelivery, FoldsToDelivered, Recorded;
    if a.Enter? {
      EnterStatus(s, a.call, a.allowed, a.now);
    } else if a.Finish? {
      hide KeyOf, LockOf;
      assert forall c :: c in s.calls && c != a.call ==> s.calls[c].id != s.calls[a.call].id;
    } else if a.Fail? {
      GivenUpFacts(s.rows, a.id, a.why, a.now);
      hide GivenUp;
    }
  }

  lemma EnterStatus(s: State, c: int, allowed: bool, now: int)
    requires StatusKept(s) && UrlsKept(s) && Exclusive(s) && c in s.calls && s.calls[c].Waiting?
    ensures StatusKept(Entered(s, c, allowed, now))
  {
    LowerDelivered();
    assert s.calls[c].row.status == DELIVERED ==> FoldsToDelivered(s.calls[c].row.status);
    EnteredShape(s, c, allowed, now);
    var t, call := Entered(s, c, allowed, now), s.calls[c];
    forall d | d in s.calls && d != c ensures Delivered(t, s.calls[d].id) <==> Delivered(s, s.calls[d].id) {
      assert s.calls[d].id != call.id;
    }
    hide Entered, FoldsToDelivered, LockOf, UrlsKept, Exclusive;
    if t.calls == s.calls - {c} {
      StatusLeft(s, t, c);
    } else {
      StatusStarted(s, t, c, Started(call));
    }
  }

  lemma StatusLeft(s: State, t: State, c: int)
    requires StatusKept(s) && t.calls == s.calls - {c}
    requires forall d :: d in s.calls && d != c ==> (Delivered(t, s.calls[d].id) <==> Delivered(s, s.calls[d].id))
    ensures StatusKept(t)
  {
    hide Delivered;
  }

  lemma StatusStarted(s: State, t: State, c: int, call: Call)
    requires StatusKept(s) && c in s.calls && t.calls == s.calls[c := call] && t.rows == s.rows
    requires call.id == s.calls[c].id && call.row == s.calls[c].row && call.row.status != DELIVERED
    ensures StatusKept(t)
  {
    assert forall j :: Delivered(t, j) <==> Delivered(s, j);
    hide Delivered;
  }

  lemma {:induction false} ExclusiveRun(s: State, run: seq<Action>)
    requires StatusKept(s) && UrlsKept(s) && ValidRun(s, run) && Always(Exclusive, s, run)
    ensures Always(NoStalePush, s, run)
    decreases |run|
  {
    if run != [] {
      StatusStep(s, run[0]);
      UrlsStep(s, run[0]);
      hide Step, Enabled, StatusKept, UrlsKept, Exclusive;
      ExclusiveRun(Step(s, run[0]), run[1..]);
    }
  }

  lemma {:induction false} ExclusiveApart(s: State, run: seq<Action>)
    requires ValidRun(s, run) && Always(KeysApart, s, run) && Always(Exclusive, s, run)
    ensures Always(Apart, s, run)
    decreases |run|
  {
    assert RowsApart(s);
    hide Step, Enabled, KeysApart, RowsApart, Exclusive;
    if run != [] { ExclusiveApart(Step(s, run[0]), run[1..]); }
  }

  /** One call at a time per resource, and one loop per key, are enough: every step is safe, at once
      and however the pushes under way end, and each key is pushed successfully at most once. */
  lemma ExclusiveIsSafe(s: State, run: seq<Action>)
    requires Initial(s) && ValidRun(s, run) && Always(OneLoopPerKey, s, run) && Always(Exclusive, s, run)
    ensures Always(Safe, s, run) && Always(Settles, s, run)
    ensures PushedOnce(Exec(s, run)) && PushesDelivered(Exec(s, run))
  {
    InitialFacts(s);
    ExclusiveRun(s, run);
    hide *;
    LocksKeepApart(s, run);
    ExclusiveApart(s, run);
    FreshEntered(s, run);
    SettlesRunExactly(s, run);
    SafeApartExactly(s, run);
    OnePushPerKey(s, run);
  }

  // ------------------------------------------------------- how it goes wrong

  /** One call pushes a resource while another, which loaded it undelivered, waits for the lock. */
  ghost predicate Rivals(s: State, d: int, c: int) {
    && UrlsKept(s) && c in s.calls && d in s.calls && s.calls[d].Pushing? && s.calls[c].Waiting?
    && s.calls[c].id == s.calls[d].id && s.calls[c].loop == s.calls[d].loop
    && KeyOf(s.calls[c]).Some? && !FoldsToDelivered(s.calls[c].row.status)
    && Twins(s.rows, s.calls[c].id, KeyOf(s.calls[c]).value) == {}
  }

  lemma TwinsElsewhere(t: Table, u: Table, id: int, key: Key)
    requires forall j :: j in u && j != id ==> j in t && t[j] == u[j]
    ensures Twins(u, id, key) <= Twins(t, id, key)
  {
    hide DedupeKey;
  }

  lemma WonFirst(s: State, d: int, c: int, now: int)
    requires Rivals(s, d, c)
    ensures Enabled(s, Finish(d, true, "", now)) && KeyOf(s.calls[d]) == KeyOf(s.calls[c]) && LockOf(s.calls[c]).Some?
    ensures var won, call := Finished(s, d, true, "", now), s.calls[c];
            && Delivered(won, call.id) && c in won.calls && won.calls[c] == call
            && LockOf(call).value !in won.locks && Twins(won.rows, call.id, KeyOf(call).value) == {}
  {
    PushingEnabled(s, d, now);
    RivalLock(s, d, c);
    hide Enabled, LockOf, FoldsToDelivered, KeyOf;
    FinishedParts(s, d, now);
    hide Finished;
    assert c != d;
    TwinsElsewhere(s.rows, Finished(s, d, true, "", now).rows, s.calls[c].id, KeyOf(s.calls[c]).value);
    hide Twins;
  }

  lemma RivalLock(s: State, d: int, c: int)
    requires Rivals(s, d, c)
    ensures KeyOf(s.calls[d]) == KeyOf(s.calls[c]) && LockOf(s.calls[c]).Some?
            && LockOf(s.calls[d]) == LockOf(s.calls[c])
  {
    hide DedupeKey, FoldsToDelivered, Twins;
  }

  /** What a push that succeeds leaves. */
  lemma FinishedParts(s: State, d: int, now: int)
    requires d in s.calls && s.calls[d].id in s.rows && LockOf(s.calls[d]).Some?
    ensures var won, id := Finished(s, d, true, "", now), s.calls[d].id;
            && won.calls == s.calls - {d} && won.locks == s.locks - {LockOf(s.calls[d]).value}
            && Delivered(won, id) && forall j :: j in won.rows && j != id ==> j in s.rows && won.rows[j] == s.rows[j]
  {
    RecordedFacts(s.rows[s.calls[d].id], true, "", now);
    hide KeyOf, Recorded;
  }

  /** Once the first push has succeeded, the other call pushes the delivered row. */
  lemma RivalGoesStale(s: State, d: int, c: int, now: int)
    requires Rivals(s, d, c)
    ensures var won := Finished(s, d, true, "", now);
            && Enabled(s, Finish(d, true, "", now)) && Enabled(won, Enter(c, true, now))
            && (var u, call := Entered(won, c, true, now), s.calls[c];
                && c in u.calls && u.calls[c] == Pushing(call.id, call.row, call.loop)
                && Delivered(u, call.id) && u.pushed == won.pushed && !NoStalePush(u))
  {
    var won, call := Finished(s, d, true, "", now), s.calls[c];
    var pushing := Pushing(call.id, call.row, call.loop);
    assert call.Waiting? && !FoldsToDelivered(call.row.status) && KeyOf(call).Some?
      && KeyOf(call) == DedupeKey(call.row.url);
    hide *;
    WonFirst(s, d, c, now);
    FastPathAgrees(won.rows, call.id, call.row.url);
    WaitingEnabled(won, c, now);
    EnteredPushing(won, c, now);
    StalePush(won, Entered(won, c, true, now), c, pushing);
  }

  lemma WaitingEnabled(s: State, c: int, now: int)
    requires c in s.calls && s.calls[c].Waiting?
    requires LockOf(s.calls[c]).Some? ==> LockOf(s.calls[c]).value !in s.locks
    ensures Enabled(s, Enter(c, true, now))
  {
    hide LockOf;
  }

  lemma StalePush(s: State, u: State, c: int, call: Call)
    requires u.rows == s.rows && u.calls == s.calls[c := call] && call.Pushing? && Delivered(s, call.id)
    ensures Delivered(u, call.id) && c in u.calls && u.calls[c] == call && !NoStalePush(u)
  {
    assert u.calls[c] == call;
  }

  /** So it can fail, and overwrite `delivered`. */
  lemma SharedResourceLosesDelivery(s: State, d: int, c: int, message: string, now: int)
    requires Rivals(s, d, c)
    ensures var won := Finished(s, d, true, "", now);
            && Enabled(s, Finish(d, true, "", now)) && Delivered(won, s.calls[c].id)
            && Enabled(won, Enter(c, true, now))
            && Enabled(Entered(won, c, true, now), Finish(c, false, message, now))
            && !Keeps(Entered(won, c, true, now), Finished(Entered(won, c, true, now), c, false, message, now))
  {
    WonFirst(s, d, c, now);
    RivalGoesStale(s, d, c, now);
    hide Finished, Entered, Rivals, LockOf, Twins, Keeps, NoStalePush;
    FinishStep(Entered(Finished(s, d, true, "", now), c, true, now), c, false, message, now);
  }

  /** Or it can succeed: one key is pushed twice. */
  lemma SharedResourcePushesTwice(s: State, d: int, c: int, now: int)
    requires Rivals(s, d, c)
    ensures var won, push := Finished(s, d, true, "", now), (KeyOf(s.calls[c]).value, s.calls[c].id);
            && Enabled(s, Finish(d, true, "", now)) && Enabled(won, Enter(c, true, now))
            && c in Entered(won, c, true, now).calls
            && Finished(Entered(won, c, true, now), c, true, "", now).pushed == s.pushed + [push] + [push]
  {
    WonFirst(s, d, c, now);
    RivalGoesStale(s, d, c, now);
    assert KeyOf(Pushing(s.calls[c].id, s.calls[c].row, s.calls[c].loop)) == KeyOf(s.calls[c]);
    hide Finished, Entered, LockOf, Twins, Keeps, NoStalePush, KeyOf;
    FinishStep(s, d, true, "", now);
    FinishStep(Entered(Finished(s, d, true, "", now), c, true, now), c, true, "", now);
  }

  // ------------------------------------------------------------- and that it does

  lemma OneStep(s: State, a: Action)
    requires Enabled(s, a)
    ensures ValidRun(s, [a]) && Exec(s, [a]) == Step(s, a)
  {
    hide Step, Enabled;
    assert [a][1..] == [];
    assert ValidRun(Step(s, a), []) && Exec(Step(s, a), []) == Step(s, a);
  }

  lemma ThreeSteps(s: State, a: Action, b: Action, c: Action, one: State, two: State)
    requires Enabled(s, a) && Step(s, a) == one && Enabled(one, b) && Step(one, b) == two && Enabled(two, c)
    ensures ValidRun(s, [a, b, c]) && Exec(s, [a, b, c]) == Step(two, c)
  {
    hide Step, Enabled;
    OneStep(two, c);
    assert [a, b, c][1..] == [b, c] && [b, c][1..] == [c];
    assert ValidRun(one, [b, c]) && Exec(one, [b, c]) == Exec(two, [c]);
  }

  /** A new row. */
  function New(url: string): Row { Row(url, "pending", 0, None, 0) }

  lemma NewIsNew(url: string)
    ensures !FoldsToDelivered(New(url).status)
  {
    assert |Lower("pending")| == 7;
  }

  /** A table of new rows has no delivered twins. */
  lemma NoTwins(t: Table, id: int, url: string)
    requires forall j :: j in t ==> t[j].status == "pending"
    ensures ExistingDelivery(t, id, url).None? && forall key :: Twins(t, id, key) == {}
  {
    assert |"pending"| == 7 && |DELIVERED| == 9;
    FastPathAgrees(t, id, url);
    hide DedupeKey, ExistingDelivery;
  }

  /** A table without calls. */
  function Start(t: Table): State { State(t, map[], map[], []) }

  /** Its first call waits, or pushes with its lock held. */
  function OneWaits(t: Table, a: Call): State { State(t, map[1 := a], map[], []) }

  function OnePushes(t: Table, a: Call): State
    requires LockOf(a).Some?
  {
    State(t, map[1 := Started(a)], map[LockOf(a).value := 1], [])
  }

  lemma FirstLoads(t: Table, i: int, l: int)
    requires i in t
    ensures Initial(Start(t)) && Enabled(Start(t), Load(1, i, l))
    ensures Step(Start(t), Load(1, i, l)) == OneWaits(t, Waiting(i, t[i], l))
  {
  }

  lemma SecondLoads(t: Table, a: Call, j: int, m: int)
    requires j in t && LockOf(a).Some?
    ensures var s := OnePushes(t, a);
            && Enabled(s, Load(2, j, m))
            && Step(s, Load(2, j, m)) == s.(calls := map[1 := Started(a), 2 := Waiting(j, t[j], m)])
  {
    hide LockOf;
  }

  lemma MapFacts(a: Call, c: Call, lock: Lock)
    ensures map[1 := a][1 := c] == map[1 := c] && map[1 := a][1] == a
    ensures map[][lock := 1] == map[lock := 1]
  {
  }

  lemma FirstEnters(t: Table, a: Call, now: int)
    requires a.Waiting? && !FoldsToDelivered(a.row.status) && LockOf(a).Some?
    requires ExistingDelivery(t, a.id, a.row.url).None?
    ensures Enabled(OneWaits(t, a), Enter(1, true, now))
    ensures Step(OneWaits(t, a), Enter(1, true, now)) == OnePushes(t, a)
  {
    var one := OneWaits(t, a);
    MapFacts(a, Pushing(a.id, a.row, a.loop), LockOf(a).value);
    assert 1 in one.calls && one.calls[1] == a && one.locks == map[] && one.rows == t && one.pushed == [];
    assert Started(a) == Pushing(a.id, a.row, a.loop);
    hide *;
    WaitingEnabled(one, 1, now);
    EnteredPushing(one, 1, now);
    EnterIs(one, 1, now);
    assert OnePushes(t, a) == State(t, map[1 := Started(a)], map[LockOf(a).value := 1], []);
  }

  lemma EnterIs(s: State, c: int, now: int)
    requires Enabled(s, Enter(c, true, now))
    ensures Step(s, Enter(c, true, now)) == Entered(s, c, true, now)
  {
    hide Entered;
  }

  /** Of two new rows, the first has a key: its call goes on to its push, then the second is loaded. */
  lemma FirstPushes(t: Table, i: int, j: int, l: int, m: int, now: int)
    requires i in t && j in t && (forall k :: k in t ==> t[k].status == "pending") && DedupeKey(t[i].url).Some?
    ensures var run := [Load(1, i, l), Enter(1, true, now), Load(2, j, m)];
            && Initial(Start(t)) && ValidRun(Start(t), run)
            && Exec(Start(t), run) == State(t, map[1 := Pushing(i, t[i], l), 2 := Waiting(j, t[j], m)],
                                            map[(l, DedupeKey(t[i].url).value) := 1], [])
  {
    NoTwins(t, i, t[i].url);
    NewIsNew(t[i].url);
    var a := Waiting(i, t[i], l);
    assert LockOf(a) == Some((l, DedupeKey(t[i].url).value));
    FirstLoads(t, i, l);
    hide LockOf, DedupeKey, ExistingDelivery, FoldsToDelivered, Step, Enabled, Twins;
    FirstEnters(t, a, now);
    SecondLoads(t, a, j, m);
    ThreeSteps(Start(t), Load(1, i, l), Enter(1, true, now), Load(2, j, m), OneWaits(t, a), OnePushes(t, a));
  }

  /** From one new row, whatever its link, three steps lead to rivals: a call goes on to its push,
      and while that is under way another call loads the row. */
  lemma SharedResourceReached(url: string, now: int)
    requires DedupeKey(url).Some?
    ensures var s, run := Start(map[7 := New(url)]), [Load(1, 7, 0), Enter(1, true, now), Load(2, 7, 0)];
            Initial(s) && ValidRun(s, run) && Rivals(Exec(s, run), 1, 2)
  {
    var t := map[7 := New(url)];
    FirstPushes(t, 7, 7, 0, 0, now);
    NoTwins(t, 7, url);
    NewIsNew(url);
    hide *;
    RivalsFromNew(t, url, DedupeKey(url).value);
  }

  lemma RivalsFromNew(t: Table, url: string, key: Key)
    requires t == map[7 := New(url)] && DedupeKey(url) == Some(key) && !FoldsToDelivered(New(url).status)
    requires Twins(t, 7, key) == {}
    ensures Rivals(State(t, map[1 := Pushing(7, t[7], 0), 2 := Waiting(7, t[7], 0)], map[(0, key) := 1], []), 1, 2)
  {
    hide DedupeKey, FoldsToDelivered, Twins;
  }

  /** Call 2 enters, its push overlaps with that of call 1, and both push the key, though no call
      pushes a delivered row. */
  ghost predicate BothPush(s: State, key: Key, now: int) {
    && Enabled(s, Enter(2, true, now))
    && var u := Entered(s, 2, true, now);
       && NoStalePush(u) && !KeysApart(u) && Enabled(u, Finish(1, true, "", now))
       && var v := Finished(u, 1, true, "", now);
          && NoStalePush(v) && Enabled(v, Finish(2, true, "", now))
          && Finished(v, 2, true, "", now).pushed == [(key, 7)] + [(key, 8)]
  }

  /** From two new rows of one key on two loops, both are pushed. */
  lemma TwoLoopsPushTwice(url: string, now: int)
    requires DedupeKey(url).Some?
    ensures var s := Start(map[7 := New(url), 8 := New(url)]);
            var run := [Load(1, 7, 1), Enter(1, true, now), Load(2, 8, 2)];
            && Initial(s) && ValidRun(s, run) && BothPush(Exec(s, run), DedupeKey(url).value, now)
  {
    var t, key := map[7 := New(url), 8 := New(url)], DedupeKey(url).value;
    FirstPushes(t, 7, 8, 1, 2, now);
    SecondPushes(t, url, key, now);
    hide *;
  }

  lemma OnlyCall(s: State, c: int, call: Call)
    requires s.calls == map[c := call] && !Delivered(s, call.id)
    ensures NoStalePush(s) && c in s.calls && s.calls[c] == call
  {
  }

  lemma WithoutFirst(a: Call, b: Call)
    ensures map[1 := a, 2 := b] - {1} == map[2 := b] && map[1 := a, 2 := b][1] == a && map[1 := a, 2 := b][2] == b
  {
  }

  lemma OneFinishes(u: State, a: Call, b: Call, now: int)
    requires u.calls == map[1 := a, 2 := b] && a.Pushing? && b.Pushing? && a.id != b.id && a.id in u.rows
    requires LockOf(a).Some? && NoStalePush(u)
    ensures 1 in u.calls && u.calls[1] == a
    ensures var v := Finished(u, 1, true, "", now);
            NoStalePush(v) && 2 in v.calls && v.calls[2] == b
  {
    WithoutFirst(a, b);
    assert 1 in u.calls && u.calls[1] == a && 2 in u.calls && u.calls[2] == b;
    assert !Delivered(u, b.id);
    hide LockOf, Finished, NoStalePush;
    FinishedParts(u, 1, now);
    OnlyCall(Finished(u, 1, true, "", now), 2, b);
  }

  /** Two calls that push the same key can both report success. */
  lemma BothFinish(u: State, a: Call, b: Call, key: Key, now: int)
    requires u.calls == map[1 := a, 2 := b] && u.pushed == [] && a.Pushing? && b.Pushing? && a.id != b.id
             && a.id in u.rows
    requires KeyOf(a) == Some(key) && KeyOf(b) == Some(key) && NoStalePush(u)
    ensures Enabled(u, Finish(1, true, "", now))
    ensures NoStalePush(Finished(u, 1, true, "", now))
            && Enabled(Finished(u, 1, true, "", now), Finish(2, true, "", now))
    ensures Finished(Finished(u, 1, true, "", now), 2, true, "", now).pushed == [(key, a.id)] + [(key, b.id)]
  {
    assert LockOf(a).Some?;
    var v := Finished(u, 1, true, "", now);
    hide *;
    OneFinishes(u, a, b, now);
    PushingEnabled(u, 1, now);
    PushingEnabled(v, 2, now);
    FinishStep(u, 1, true, "", now);
    FinishStep(v, 2, true, "", now);
    assert [] + [(key, a.id)] == [(key, a.id)];
  }

  lemma PushingEnabled(s: State, c: int, now: int)
    requires c in s.calls && s.calls[c].Pushing?
    ensures Enabled(s, Finish(c, true, "", now))
  {
  }

  lemma SecondPushes(t: Table, url: string, key: Key, now: int)
    requires t == map[7 := New(url), 8 := New(url)] && DedupeKey(url) == Some(key)
    ensures var s := State(t, map[1 := Pushing(7, t[7], 1), 2 := Waiting(8, t[8], 2)], map[(1, key) := 1], []);
            BothPush(s, key, now)
  {
    var s := State(t, map[1 := Pushing(7, t[7], 1), 2 := Waiting(8, t[8], 2)], map[(1, key) := 1], []);
    NoTwins(t, 8, url);
    NewIsNew(url);
    var a, b := Pushing(7, t[7], 1), Pushing(8, t[8], 2);
    SecondFacts(t, url, key);
    hide *;
    WaitingEnabled(s, 2, now);
    EnteredPushing(s, 2, now);
    var u := Entered(s, 2, true, now);
    NewNotStale(u);
    Overlap(u, a, b);
    BothFinish(u, a, b, key, now);
    BothPushed(s, u, Finished(u, 1, true, "", now), key, now);
  }

  lemma BothPushed(s: State, u: State, v: State, key: Key, now: int)
    requires Enabled(s, Enter(2, true, now)) && u == Entered(s, 2, true, now)
    requires NoStalePush(u) && !KeysApart(u) && Enabled(u, Finish(1, true, "", now))
    requires v == Finished(u, 1, true, "", now) && NoStalePush(v) && Enabled(v, Finish(2, true, "", now))
    requires Finished(v, 2, true, "", now).pushed == [(key, 7)] + [(key, 8)]
    ensures BothPush(s, key, now)
  {
    hide Enabled, Entered, Finished, NoStalePush, KeysApart;
  }

  lemma Overlap(u: State, a: Call, b: Call)
    requires u.calls == map[1 := a, 2 := b] && a.Pushing? && b.Pushing? && KeyOf(a).Some? && KeyOf(a) == KeyOf(b)
    ensures !KeysApart(u)
  {
    hide KeyOf;
    assert u.calls[1] == a && u.calls[2] == b;
  }

  lemma SecondFacts(t: Table, url: string, key: Key)
    requires t == map[7 := New(url), 8 := New(url)] && DedupeKey(url) == Some(key)
    ensures 7 in t && 8 in t && t[8].url == url && t[8].status == New(url).status
    ensures forall j :: j in t ==> t[j].status == "pending"
    ensures LockOf(Waiting(8, t[8], 2)) == Some((2, key))
    ensures KeyOf(Pushing(7, t[7], 1)) == Some(key) && KeyOf(Pushing(8, t[8], 2)) == Some(key)
    ensures var a, b := Pushing(7, t[7], 1), Pushing(8, t[8], 2);
            && map[1 := a, 2 := Waiting(8, t[8], 2)][2 := b] == map[1 := a, 2 := b]
            && map[1 := a, 2 := Waiting(8, t[8], 2)][2] == Waiting(8, t[8], 2)
    ensures (2, key) !in map[(1, key) := 1]
  {
    hide DedupeKey;
  }

  lemma NewNotStale(s: State)
    requires forall j :: j in s.rows ==> s.rows[j].status == "pending"
    ensures NoStalePush(s)
  {
    assert |"pending"| == 7 && |DELIVERED| == 9;
  }
}
