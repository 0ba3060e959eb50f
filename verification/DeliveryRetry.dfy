/** Automatic retries of failed deliveries: selection with backoff, and whole runs of them. */
module DeliveryRetry {
  import opened DeliveryState
  import opened PyText
  import opened ShareLinks

  // ------------------------------------------------------------ decisions

  /** `RETRY_BACKOFF_SECONDS`, in seconds; kinds without an entry use the temporary windows. */
  function Windows(kind: FailureKind): (w: seq<int>)
    ensures |w| == 4
  {
    match kind
    case Timeout => [60, 180, 600, 1800]
    case Network => [90, 300, 900, 1800]
    case Rate => [300, 900, 1800, 3600]
    case Flood => [600, 1800, 3600, 7200]
    case Auth => [900, 1800, 3600, 7200]
    case _ => [120, 600, 1800, 3600]
  }

  function StoredKind(row: Row): FailureKind { Classify(if row.lastError.Some? then row.lastError.value else "") }

  function Backoff(row: Row): int {
    Windows(StoredKind(row))[if row.retryCount < 3 then row.retryCount else 3]
  }

  predicate NonRetry(kind: FailureKind) { kind == Invalid || kind == Final }

  /** `_retry_due`. */
  predicate Due(row: Row, now: int) { !NonRetry(StoredKind(row)) && row.updatedAt + Backoff(row) <= now }

  datatype Decision = Act | InvalidLink | FinalExhausted | InBackoff

  /** The branches of the selection loop for one row. */
  function Decide(row: Row, now: int): Decision {
    if Lower(row.status) == "link_invalid" || StoredKind(row) == Invalid then InvalidLink
    else if Lower(row.status) == "delivery_failed_final" && StoredKind(row) == Final && row.retryCount >= 3
    then FinalExhausted
    else if !Due(row, now) then InBackoff
    else Act
  }

  predicate ListedStatus(status: string) {
    status == "failed" || status == "delivery_failed_retryable" || status == "delivery_failed_final"
  }

  // ------------------------------------------------------------ selection

  /** `max(1, min(int(limit or 20), 100))`: a limit of 0 stands for 20. */
  function Cap(limit: int): (c: int)
    ensures 1 <= c <= 100
  {
    var l := if limit == 0 then 20 else limit;
    if l < 1 then 1 else if l > 100 then 100 else l
  }

  /** The cap is the number from 1 to 100 that is nearest to the limit; no limit means 20. */
  lemma CapNearest(limit: int, k: int)
    requires 1 <= k <= 100
    ensures Cap(0) == 20
    ensures limit != 0 ==> Distance(limit, Cap(limit)) <= Distance(limit, k)
  {
  }

  function Distance(a: int, b: int): nat { if a < b then b - a else a - b }

  function Acting(ds: seq<Decision>): (n: nat)
    ensures n <= |ds|
  {
    if ds == [] then 0 else Acting(ds[..|ds| - 1]) + if ds[|ds| - 1] == Act then 1 else 0
  }

  /** `select_retryable_failed_resources` on the listed rows: the decisions on the shortest
      prefix of the listing that fills the cap, or on the whole listing. */
  method Select(rows: seq<Row>, limit: int, now: int) returns (selected: seq<Decision>)
    ensures |selected| <= |rows| && forall i :: 0 <= i < |selected| ==> selected[i] == Decide(rows[i], now)
    ensures Acting(selected) <= Cap(limit)
    ensures forall n :: 0 <= n < |selected| ==> Acting(selected[..n]) < Cap(limit)
    ensures |selected| < |rows| ==> Acting(selected) == Cap(limit)
  {
    hide Decide, Cap;
    selected := [];
    var count := 0;
    for i := 0 to |rows|
      invariant |selected| == i && count == Acting(selected) < Cap(limit)
      invariant forall k :: 0 <= k < i ==> selected[k] == Decide(rows[k], now)
      invariant forall n :: 0 <= n < i ==> Acting(selected[..n]) < Cap(limit)
    {
      var d := Decide(rows[i], now);
      ghost var before := selected;
      selected := selected + [d];
      assert selected[..i] == before;
      assert forall n :: 0 <= n < i ==> selected[..n] == before[..n];
      if d == Act {
        count := count + 1;
        if count >= Cap(limit) {
          return;
        }
      }
    }
  }

  // ------------------------------------------------------- runs of retries

  /** One automatic retry: selected at one time, reported at a later one. */
  datatype Retry = Retry(id: int, selectedAt: int, finishedAt: int, ok: bool, message: string)

  predicate Selectable(t: Table, e: Retry) {
    e.id in t && ListedStatus(t[e.id].status) && Decide(t[e.id], e.selectedAt) == Act && e.selectedAt <= e.finishedAt
  }

  function After(t: Table, e: Retry): Table
    requires e.id in t
  {
    t[e.id := Recorded(t[e.id], e.ok, e.message, e.finishedAt)]
  }

  predicate ValidRetries(t: Table, run: seq<Retry>)
    decreases |run|
  {
    run == [] || (Selectable(t, run[0]) && ValidRetries(After(t, run[0]), run[1..]))
  }

  function End(t: Table, run: seq<Retry>): Table
    requires ValidRetries(t, run)
    decreases |run|
  {
    if run == [] then t else End(After(t, run[0]), run[1..])
  }

  /** Sum of the backoff windows the retries of `id` had to sit out, each taken from the row as
      the previous attempt left it. */
  function Waited(t: Table, run: seq<Retry>, id: int): int
    requires ValidRetries(t, run)
    decreases |run|
  {
    if run == [] then 0
    else (if run[0].id == id then Backoff(t[id]) else 0) + Waited(After(t, run[0]), run[1..], id)
  }

  predicate AllFail(run: seq<Retry>, id: int) {
    forall i :: 0 <= i < |run| && run[i].id == id ==> !run[i].ok
  }

  function Attempts(run: seq<Retry>, id: int): nat {
    if run == [] then 0 else (if run[0].id == id then 1 else 0) + Attempts(run[1..], id)
  }

  /** Consecutive failures of a resource take at least the sum of its successive windows,
      whatever happens to other resources in between. */
  lemma {:induction false} FailuresTakeTheirTime(t: Table, run: seq<Retry>, id: int)
    requires id in t && ValidRetries(t, run) && AllFail(run, id)
    ensures id in End(t, run) && End(t, run)[id].updatedAt - t[id].updatedAt >= Waited(t, run, id)
    ensures End(t, run)[id].retryCount == t[id].retryCount + Attempts(run, id)
    decreases |run|
  {
    hide Classify, FailedStatus, Backoff, Lower;
    if run != [] {
      var e := run[0];
      assert forall i :: 0 <= i < |run| - 1 ==> run[1..][i] == run[i + 1];
      FailuresTakeTheirTime(After(t, e), run[1..], id);
    }
  }

  lemma BackoffBounds(row: Row)
    ensures Backoff(row) >= 60 && (row.retryCount >= 3 ==> Backoff(row) >= 1800)
  {
    hide Classify;
  }

  /** From the fourth failure on, every further automatic attempt costs at least half an hour. */
  lemma {:induction false} LateRetriesAreRare(t: Table, run: seq<Retry>, id: int)
    requires id in t && ValidRetries(t, run) && AllFail(run, id) && t[id].retryCount >= 3
    ensures id in End(t, run) && End(t, run)[id].updatedAt - t[id].updatedAt >= 1800 * Attempts(run, id)
  {
    hide *;
    FailuresTakeTheirTime(t, run, id);
    WaitedLate(t, run, id);
  }

  lemma {:induction false} WaitedLate(t: Table, run: seq<Retry>, id: int)
    requires id in t && ValidRetries(t, run) && AllFail(run, id) && t[id].retryCount >= 3
    ensures Waited(t, run, id) >= 1800 * Attempts(run, id)
    decreases |run|
  {
    hide Classify, FailedStatus, Backoff, Lower;
    if run != [] {
      BackoffBounds(t[id]);
      assert forall i :: 0 <= i < |run| - 1 ==> run[1..][i] == run[i + 1];
      WaitedLate(After(t, run[0]), run[1..], id);
    }
  }

  /** A row that is never selectable drops out of every run. */
  lemma {:induction false} NeverPicked(t: Table, run: seq<Retry>, id: int)
    requires id in t && ValidRetries(t, run)
    requires forall now :: !ListedStatus(t[id].status) || Decide(t[id], now) != Act
    ensures Attempts(run, id) == 0 && id in End(t, run) && End(t, run)[id] == t[id]
    decreases |run|
  {
    hide Classify, FailedStatus, Decide;
    if run != [] {
      assert Selectable(t, run[0]);
      NeverPicked(After(t, run[0]), run[1..], id);
    }
  }

  lemma InvalidUnlisted(row: Row, message: string, now: int)
    requires Classify(message) == Invalid
    ensures !ListedStatus(Recorded(row, false, message, now).status)
  {
    hide Classify;
    assert FailedStatus(message) == "link_invalid";
    assert |"link_invalid"| == 12 && |"failed"| == 6 && |"delivery_failed_retryable"| == 25;
  }

  /** A resource whose last failure was an invalid link is never retried automatically. */
  lemma InvalidNeverRetried(t: Table, run: seq<Retry>, id: int, row: Row, message: string, now: int)
    requires id in t && t[id] == Recorded(row, false, message, now) && Classify(message) == Invalid
    requires ValidRetries(t, run)
    ensures Attempts(run, id) == 0 && id in End(t, run) && End(t, run)[id] == t[id]
  {
    hide *;
    InvalidUnlisted(row, message, now);
    NeverPicked(t, run, id);
  }

  /** After a final failure the resource can be picked again exactly when the 500 characters
      kept of its message are blank. */
  lemma FinalRetriedOnlyIfBlank(row: Row, message: string, now: int)
    requires Classify(message) == Final
    ensures var failed := Recorded(row, false, message, now);
            (exists later :: ListedStatus(failed.status) && Decide(failed, later) == Act) <==>
            Strip(Lower(Truncated(message))) == ""
  {
    FinalSurvivesTruncation(message);
    var failed := Recorded(row, false, message, now);
    FinalStored(row, message, now);
    hide *;
    ActsByKind(failed);
  }

  lemma ActsByKind(failed: Row)
    requires ListedStatus(failed.status) && Lower(failed.status) != "link_invalid"
    ensures StoredKind(failed) == Temporary ==>
              exists later :: ListedStatus(failed.status) && Decide(failed, later) == Act
    ensures StoredKind(failed) == Final ==> forall later :: Decide(failed, later) != Act
  {
    hide StoredKind, Lower, Backoff, ListedStatus;
    if StoredKind(failed) == Temporary {
      assert Decide(failed, failed.updatedAt + Backoff(failed)) == Act;
    }
  }

  lemma FinalStored(row: Row, message: string, now: int)
    requires Classify(message) == Final
    ensures var failed := Recorded(row, false, message, now);
            && ListedStatus(failed.status) && Lower(failed.status) != "link_invalid"
            && StoredKind(failed) == Classify(Truncated(message))
  {
    hide Classify, Truncated;
    assert FailedStatus(message) == "delivery_failed_final";
    assert |Lower("delivery_failed_final")| == 21 && |"link_invalid"| == 12;
  }

  /** Hence a final failure whose kept message is not blank ends the automatic retries. */
  lemma FinalNeverRetried(t: Table, run: seq<Retry>, id: int, row: Row, message: string, now: int)
    requires id in t && t[id] == Recorded(row, false, message, now) && Classify(message) == Final
    requires Strip(Lower(Truncated(message))) != "" && ValidRetries(t, run)
    ensures Attempts(run, id) == 0 && id in End(t, run) && End(t, run)[id] == t[id]
  {
    hide *;
    FinalRetriedOnlyIfBlank(row, message, now);
    NeverPicked(t, run, id);
  }

  // ----------------------------------------------------------- when a failure is retried

  lemma ListedLower(status: string)
    requires ListedStatus(status)
    ensures Lower(status) == status && Lower(status) != "link_invalid"
  {
    assert |"link_invalid"| == 12;
    if status == "failed" {
      assert Lower("failed") == "failed";
    } else if status == "delivery_failed_retryable" {
      assert Lower("delivery_failed_retryable") == "delivery_failed_retryable";
    } else {
      assert Lower("delivery_failed_final") == "delivery_failed_final";
    }
  }

  lemma ActsExactly(row: Row, later: int)
    requires ListedStatus(row.status)
    ensures Decide(row, later) == Act <==> !NonRetry(StoredKind(row)) && row.updatedAt + Backoff(row) <= later
  {
    ListedLower(row.status);
    hide Lower, StoredKind, Backoff, ListedStatus;
  }

  lemma WrittenStatus(message: string)
    ensures !ListedStatus(FailedStatus(message)) <==> Classify(message) == Invalid
    ensures FailedStatus(message) == "delivery_failed_final" <==> Classify(message) == Final
  {
    hide Classify;
    assert |"link_invalid"| == 12 && |"failed"| == 6 && |"delivery_failed_retryable"| == 25;
    assert |"delivery_failed_final"| == 21;
  }

  /**
   A failed attempt is retried from the end of a pause on, counted in seconds from the failure, which
   grows with the first, second and third failure in a row.  Only an invalid link is never listed again, and
   only what the stored 500 characters make invalid or final is never due.
   */
  lemma RetriedExactly(row: Row, message: string, now: int, later: int)
    ensures var failed, kind := Recorded(row, false, message, now), Classify(Truncated(message));
            var n := if row.retryCount < 2 then row.retryCount else 2;
            var pause := match kind
                         case Timeout => [180, 600, 1800][n]
                         case Network => [300, 900, 1800][n]
                         case Rate => [900, 1800, 3600][n]
                         case Flood => [1800, 3600, 7200][n]
                         case Auth => [1800, 3600, 7200][n]
                         case _ => [600, 1800, 3600][n];
            && (ListedStatus(failed.status) <==> Classify(message) != Invalid)
            && (ListedStatus(failed.status) ==>
                (Decide(failed, later) == Act <==> kind != Invalid && kind != Final && later - now >= pause))
  {
    hide Classify, Truncated;
    WrittenStatus(message);
    var failed := Recorded(row, false, message, now);
    assert StoredKind(failed) == Classify(Truncated(message));
    hide FailedStatus, ListedStatus, Decide;
    if ListedStatus(failed.status) { ActsExactly(failed, later); }
  }

  /** A message that fits is stored as it is, so that its own class decides. */
  lemma ShortFailureRetried(row: Row, message: string, now: int)
    requires |message| <= 500 && Classify(message) != Invalid && Classify(message) != Final
    ensures var failed := Recorded(row, false, message, now);
            ListedStatus(failed.status) && exists later :: Decide(failed, later) == Act
  {
    var failed := Recorded(row, false, message, now);
    var later := now + 7200;
    RetriedExactly(row, message, now, later);
    hide Classify, FailedStatus, Decide;
    assert Decide(failed, later) == Act;
  }

  /** A row that was given up while pending is retried by the class of the error it shows then. */
  lemma GivenUpRetriedExactly(row: Row, why: Setback, now: int, later: int)
    requires row.status == "pending"
    ensures var left, kind := SetBack(row, why, now), Classify(SetbackError(row.lastError, why));
            var n := if row.retryCount < 3 then row.retryCount else 3;
            var pause := match kind
                         case Timeout => [60, 180, 600, 1800][n]
                         case Network => [90, 300, 900, 1800][n]
                         case Rate => [300, 900, 1800, 3600][n]
                         case Flood => [600, 1800, 3600, 7200][n]
                         case Auth => [900, 1800, 3600, 7200][n]
                         case _ => [120, 600, 1800, 3600][n];
            && ListedStatus(left.status)
            && (Decide(left, later) == Act <==> kind != Invalid && kind != Final && later - now >= pause)
            && (kind == Invalid ==> Decide(left, later) == InvalidLink)
            && (kind == Final ==> Decide(left, later) == InBackoff)
  {
    hide Classify, SetbackError;
    var left := SetBack(row, why, now);
    assert StoredKind(left) == Classify(SetbackError(row.lastError, why));
    assert ListedStatus(left.status);
    ActsExactly(left, later);
    NotForGood(left, later);
    hide ListedStatus, Decide;
  }

  /** A row that is not marked as failed for good is paused if its error is final. */
  lemma NotForGood(row: Row, later: int)
    requires row.status == "failed" || row.status == "delivery_failed_retryable"
    ensures StoredKind(row) == Invalid ==> Decide(row, later) == InvalidLink
    ensures StoredKind(row) == Final ==> Decide(row, later) == InBackoff
  {
    ListedLower(row.status);
    assert |"failed"| == 6 && |"delivery_failed_retryable"| == 25 && |"delivery_failed_final"| == 21;
    hide Lower, StoredKind, Backoff;
  }

  /** A listed row without an error is retried as after a temporary one. */
  lemma ErrorlessRetriedExactly(row: Row, later: int)
    requires ListedStatus(row.status) && row.lastError.None?
    ensures var n := if row.retryCount < 3 then row.retryCount else 3;
            Decide(row, later) == Act <==> later - row.updatedAt >= [120, 600, 1800, 3600][n]
  {
    EmptyIsTemporary();
    hide Classify, ListedStatus, Decide;
    ActsExactly(row, later);
  }

  lemma EmptyIsTemporary()
    ensures Classify("") == Temporary
  {
    assert Lower("") == "" && Strip("") == "";
    hide Lower, Strip, ContainsAny, Contains;
  }

  /** What the selection reports of a row that failed for good: a pause, and from the third failure on
      that it is exhausted. */
  lemma FinalReported(row: Row, message: string, now: int, later: int)
    requires Classify(message) == Final && Strip(Lower(Truncated(message))) != ""
    ensures Decide(Recorded(row, false, message, now), later)
            == if row.retryCount >= 2 then FinalExhausted else InBackoff
  {
    FinalSurvivesTruncation(message);
    var failed := Recorded(row, false, message, now);
    WrittenStatus(message);
    FinalStored(row, message, now);
    ListedLower(failed.status);
    hide Classify, Truncated, Lower, ListedStatus;
    assert failed.status == "delivery_failed_final" && StoredKind(failed) == Final;
    hide FailedStatus, StoredKind;
  }
}
