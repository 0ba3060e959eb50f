/** The loop that saves the results of one batch for one subscription. */
module AttachLoop {
  import opened DeliveryState
  import opened DuplicateCheck
  import opened PyText
  import opened ShareLinks

  /** The subscription and what the other parts of the program decide about results and links. */
  datatype Context = Context(
    facts: Facts,
    sub: int,
    isTv: bool,
    validLink: string -> bool,
    shareLink: string -> bool,
    allowed: Result -> bool,
    matches: Result -> bool)

  predicate StartsWith(s: string, p: string) { |p| <= |s| && s[..|p|] == p }

  /** `result_is_fallback_source`. */
  predicate IsFallback(r: Result) {
    var source := Lower(r.source);
    StartsWith(source, "rss:") || StartsWith(source, "torznab:") || StartsWith(source, "magnet_web:")
      || StartsWith(source, "site_plugin:")
  }

  const UNUSABLE := {"failed", "pending_recheck", "skipped", "link_invalid", "delivery_failed_final",
    "delivery_failed_retryable"}

  /** `subscription_115_resources`: usable rows with a share link. */
  function Primaries(rows: seq<Listed>): seq<Listed> {
    if rows == [] then []
    else if rows[0].status !in UNUSABLE && IsShareUrl(rows[0].url) then [rows[0]] + Primaries(rows[1..])
    else Primaries(rows[1..])
  }

  /** `fallback_blocked_by_primary_resource`. */
  predicate Blocked(x: Context, primaries: seq<Listed>, r: Result) {
    IsFallback(r) && primaries != [] && x.shareLink(r.url) &&
    (!x.isTv ||
     (var episodes := x.facts.episodes(x.sub, x.facts.resultText(r));
      episodes != {} &&
      exists k :: 0 <= k < |primaries| && Lower(primaries[k].status) !in UNUSABLE &&
        x.facts.episodes(x.sub, primaries[k].title) != {} && episodes <= x.facts.episodes(x.sub, primaries[k].title)))
  }

  /** The result as it is saved: with its canonical URL. */
  function Canonized(r: Result): Result { if Canonical(r.url) != "" then r.(url := Canonical(r.url)) else r }

  function RowOf(s: Result): Listed { Listed(s.title, s.url, "pending") }

  /** `_insert_resource` saves the result: valid, allowed, no duplicate, and no row with its URL. */
  predicate Inserts(x: Context, rows: seq<Listed>, s: Result) {
    x.validLink(s.url) && x.allowed(s) && Strongest(x.facts, x.sub, CandidateOf(x.facts, x.sub, s), rows).None? &&
    !HasUrl(rows, s.url)
  }

  predicate HasUrl(rows: seq<Listed>, url: string) { exists k :: 0 <= k < |rows| && rows[k].url == url }

  /** `matched` is the priority of the first fallback that matched. */
  datatype Batch = Batch(rows: seq<Listed>, primaries: seq<Listed>, saved: seq<Result>, fallbackSaved: bool,
                         matched: Option<int>)

  function AttachOne(x: Context, b: Batch, r: Result): Batch {
    if IsFallback(r) && b.fallbackSaved then b
    else if IsFallback(r) && b.matched.Some? && r.priority < b.matched.value then b
    else if !x.matches(r) then b
    else
      var noted := b.(matched := if IsFallback(r) && b.matched.None? then Some(r.priority) else b.matched);
      var s := Canonized(r);
      if Blocked(x, b.primaries, r) || !Inserts(x, b.rows, s) then noted
      else noted.(rows := [RowOf(s)] + b.rows,
                  primaries := if IsShareUrl(s.url) then [RowOf(s)] + b.primaries else b.primaries,
                  saved := b.saved + [s],
                  fallbackSaved := b.fallbackSaved || IsFallback(r))
  }

  function AttachAll(x: Context, b: Batch, rs: seq<Result>): Batch {
    if rs == [] then b else AttachOne(x, AttachAll(x, b, rs[..|rs| - 1]), rs[|rs| - 1])
  }

  function Start(rows: seq<Listed>): Batch { Batch(rows, Primaries(rows), [], false, None) }

  lemma AttachNone(x: Context, b: Batch, rs: seq<Result>)
    ensures AttachAll(x, b, rs[..0]) == b
  {
  }

  lemma AttachNext(x: Context, b: Batch, rs: seq<Result>, i: nat)
    requires i < |rs|
    ensures AttachAll(x, b, rs[..i + 1]) == AttachOne(x, AttachAll(x, b, rs[..i]), rs[i])
  {
    hide AttachOne;
    assert rs[..i + 1][..i] == rs[..i];
  }

  /** `_attach_results_for_subscription`. */
  method AttachResults(x: Context, checker: Checker, list: RowList, ordered: seq<Result>) returns (saved: seq<Result>)
    requires checker.Valid() && checker.facts == x.facts
    modifies checker, list
    ensures checker.Valid()
    ensures saved == AttachAll(x, Start(old(list.rows)), ordered).saved
    ensures list.rows == AttachAll(x, Start(old(list.rows)), ordered).rows
  {
    hide Primaries, Blocked, Canonized, IsFallback, Inserts, IsShareUrl, AttachAll;
    saved := [];
    var matched: Option<int>, fallbackSaved := None, false;
    var primaries := Primaries(list.rows);
    ghost var start := Start(list.rows);
    AttachNone(x, start, ordered);
    for i := 0 to |ordered|
      invariant checker.Valid()
      invariant Batch(list.rows, primaries, saved, fallbackSaved, matched) == AttachAll(x, start, ordered[..i])
    {
      AttachNext(x, start, ordered, i);
      var r := ordered[i];
      var isFallback := IsFallback(r);
      if isFallback && fallbackSaved {
        continue;
      }
      if isFallback && matched.Some? && r.priority < matched.value {
        continue;
      }
      if !x.matches(r) {
        continue;
      }
      if Blocked(x, primaries, r) {
        if isFallback && matched.None? {
          matched := Some(r.priority);
        }
        continue;
      }
      var s := Canonized(r);
      var inserted := InsertResource(x, checker, list, s);
      if inserted && IsShareUrl(s.url) {
        primaries := [RowOf(s)] + primaries;
      }
      if isFallback && matched.None? {
        matched := Some(r.priority);
      }
      if !inserted {
        continue;
      }
      saved := saved + [s];
      if isFallback {
        fallbackSaved := true;
      }
    }
    assert ordered[..|ordered|] == ordered;
  }

  /** A batch of results is sorted, and then attached. */
  method AttachBatch(x: Context, checker: Checker, list: RowList, results: seq<Result>) returns (saved: seq<Result>)
    requires checker.Valid() && checker.facts == x.facts
    modifies checker, list
    ensures checker.Valid()
    ensures saved == AttachAll(x, Start(old(list.rows)), Ordered(results)).saved
    ensures list.rows == AttachAll(x, Start(old(list.rows)), Ordered(results)).rows
    ensures forall s, r :: s in saved && IsFallback(s) && r in results && Accepted(x, r) ==> r.priority <= s.priority
  {
    hide AttachAll, IsFallback, Ordered;
    ghost var rows := list.rows;
    saved := AttachResults(x, checker, list, Ordered(results));
    forall s, r | s in saved && IsFallback(s) && r in results && Accepted(x, r) ensures r.priority <= s.priority {
      BestFallback(x, rows, results, s, r);
    }
  }

  /** `_insert_resource` on a result with its canonical URL. */
  method InsertResource(x: Context, checker: Checker, list: RowList, s: Result) returns (inserted: bool)
    requires checker.Valid() && checker.facts == x.facts
    modifies checker, list
    ensures checker.Valid()
    ensures inserted == Inserts(x, old(list.rows), s)
    ensures list.rows == if inserted then [RowOf(s)] + old(list.rows) else old(list.rows)
  {
    hide Strongest, CandidateOf;
    if !x.validLink(s.url) {
      return false;
    }
    if !x.allowed(s) {
      return false;
    }
    var reason := checker.ResourceAlreadyExists(list, x.sub, s);
    if reason.Some? {
      return false;
    }
    if HasUrl(list.rows, s.url) {
      return false;
    }
    checker.InsertRow(list, RowOf(s));
    return true;
  }

  // ------------------------------------------------------- what the rules say

  lemma StartsExactly(source: string, word: string)
    requires NoCapitals(word)
    ensures StartsWith(Lower(source), word) <==> SaysAt(source, 0, word)
  {
    var text := Lower(source);
    if |word| <= |source| {
      assert forall j {:trigger word[j]} :: 0 <= j < |word| ==> text[..|word|][j] == AsciiLower(source[j]);
      if SaysAt(source, 0, word) {
        assert text[..|word|] == word;
      }
      if StartsWith(text, word) {
        assert forall j {:trigger word[j]} :: 0 <= j < |word| ==> text[..|word|][j] == word[j];
      }
    }
  }

  /** Fallbacks are told by the beginning of their source, in any letter case. */
  lemma FallbackExactly(r: Result)
    ensures IsFallback(r) <==>
              || SaysAt(r.source, 0, "rss:") || SaysAt(r.source, 0, "torznab:")
              || SaysAt(r.source, 0, "magnet_web:") || SaysAt(r.source, 0, "site_plugin:")
  {
    StartsExactly(r.source, "rss:");
    StartsExactly(r.source, "torznab:");
    StartsExactly(r.source, "magnet_web:");
    StartsExactly(r.source, "site_plugin:");
    hide StartsWith, SaysAt, Lower;
  }

  /** The canonical URL replaces the URL, whatever it is. */
  lemma CanonizedIs(r: Result)
    ensures Canonized(r) == r.(url := Canonical(r.url))
  {
    hide Normalize, IsShareUrl, Parse;
  }

  lemma SameWords()
    ensures UNUSABLE == INEFFECTIVE
  {
  }

  lemma UnusableSmall()
    ensures forall word :: word in UNUSABLE ==> NoCapitals(word)
  {
  }

  lemma PendingCounts()
    ensures Lower("pending") !in INEFFECTIVE && Lower("") !in INEFFECTIVE
  {
    EffectiveWords();
    LowerWord("");
    assert |""| == 0;
    hide Lower;
    assert "" !in INEFFECTIVE;
  }

  /** The rows that do not count against duplicates are those that block nothing, told by the same words. */
  lemma UnusableExactly(status: string)
    ensures Lower(status) in UNUSABLE <==> !Effective(status)
    ensures status in UNUSABLE ==> !Effective(status)
  {
    hide Lower, INEFFECTIVE, UNUSABLE, NoCapitals;
    SameWords();
    UnusableSmall();
    PendingCounts();
    if status in UNUSABLE { LowerWord(status); }
  }

  /** A row of a share link that a query for primary resources returns. */
  predicate PrimaryRow(row: Listed) { row.status !in UNUSABLE && IsShareUrl(row.url) }

  lemma {:induction false} PrimariesAre(rows: seq<Listed>)
    ensures forall row :: row in Primaries(rows) <==> row in rows && PrimaryRow(row)
    decreases |rows|
  {
    hide IsShareUrl, UNUSABLE;
    if rows != [] {
      PrimariesAre(rows[1..]);
      assert rows == [rows[0]] + rows[1..];
    }
  }

  /** A primary row that counts and has all these episodes. */
  predicate CoversNamed(x: Context, row: Listed, named: Episodes) {
    PrimaryRow(row) && Effective(row.status) && forall e :: e in named ==> e in x.facts.episodes(x.sub, row.title)
  }

  /** A primary row that is not passed over and has all these episodes. */
  predicate Covers(x: Context, row: Listed, named: Episodes) {
    Lower(row.status) !in UNUSABLE && forall e :: e in named ==> e in x.facts.episodes(x.sub, row.title)
  }

  predicate AnyCovers(x: Context, rows: seq<Listed>, named: Episodes) {
    exists row :: row in rows && Covers(x, row, named)
  }

  lemma BlockedBy(x: Context, primaries: seq<Listed>, r: Result)
    ensures var named := x.facts.episodes(x.sub, x.facts.resultText(r));
            Blocked(x, primaries, r) <==>
              && IsFallback(r) && x.shareLink(r.url)
              && (if !x.isTv then primaries != [] else named != {} && AnyCovers(x, primaries, named))
  {
    var named := x.facts.episodes(x.sub, x.facts.resultText(r));
    hide IsFallback, UNUSABLE, Lower;
    if AnyCovers(x, primaries, named) && named != {} {
      var row :| row in primaries && Covers(x, row, named);
      var k :| 0 <= k < |primaries| && primaries[k] == row;
      assert named <= x.facts.episodes(x.sub, primaries[k].title);
    }
    if named != {} && x.isTv && Blocked(x, primaries, r) {
      var k :| 0 <= k < |primaries| && Lower(primaries[k].status) !in UNUSABLE
        && named <= x.facts.episodes(x.sub, primaries[k].title);
      assert primaries[k] in primaries && Covers(x, primaries[k], named);
    }
  }

  lemma CoversExactly(x: Context, row: Listed, named: Episodes)
    ensures CoversNamed(x, row, named) <==> PrimaryRow(row) && Covers(x, row, named)
  {
    UnusableExactly(row.status);
    hide PrimaryRow, Effective, Lower, UNUSABLE;
  }

  /** A share link of a fallback source is blocked for a film by any primary row; for a series only by
      one that counts and covers all the episodes that the fallback names. */
  lemma BlockedExactly(x: Context, rows: seq<Listed>, r: Result)
    ensures var named := x.facts.episodes(x.sub, x.facts.resultText(r));
            Blocked(x, Primaries(rows), r) <==>
              && IsFallback(r) && x.shareLink(r.url)
              && (if !x.isTv then exists row :: row in rows && PrimaryRow(row)
                  else named != {} && exists row :: row in rows && CoversNamed(x, row, named))
  {
    var named, primaries := x.facts.episodes(x.sub, x.facts.resultText(r)), Primaries(rows);
    hide Blocked, Primaries, PrimaryRow, Covers, CoversNamed, IsFallback;
    PrimariesAre(rows);
    BlockedBy(x, primaries, r);
    forall row ensures CoversNamed(x, row, named) <==> PrimaryRow(row) && Covers(x, row, named) {
      CoversExactly(x, row, named);
    }
    if primaries != [] { assert primaries[0] in primaries; }
  }

  /** What `_insert_resource` refuses: a bad link, a result that is not allowed, a URL that is there, and
      what the duplicate check refuses. */
  lemma InsertsExactly(x: Context, rows: seq<Listed>, s: Result)
    ensures var c := CandidateOf(x.facts, x.sub, s);
            Inserts(x, rows, s) <==>
              && x.validLink(s.url) && x.allowed(s)
              && forall k :: 0 <= k < |rows| ==>
                   && rows[k].url != s.url && !SameKeyRow(c, rows[k])
                   && !CoveringRow(x.facts, x.sub, c, rows[k]) && !AlikeRow(x.facts, x.sub, c, rows[k])
  {
    StrongestExactly(x.facts, x.sub, CandidateOf(x.facts, x.sub, s), rows);
    hide Strongest, CandidateOf, SameKeyRow, CoveringRow, AlikeRow;
  }

  // ------------------------------------------------------------ batch order

  /** Python's comparison of strings. */
  predicate StringLess(a: string, b: string)
    decreases |a|
  {
    if b == "" then false
    else if a == "" then true
    else if a[0] != b[0] then a[0] < b[0]
    else StringLess(a[1..], b[1..])
  }

  /** The sort key of a batch: higher priority, then source, then message id. */
  predicate Sooner(a: Result, b: Result) {
    || a.priority > b.priority
    || (a.priority == b.priority
        && (StringLess(a.source, b.source) || (a.source == b.source && StringLess(a.messageId, b.messageId))))
  }

  /** `sorted` is stable: a result goes behind those that are not later. */
  function Placed(rs: seq<Result>, r: Result): seq<Result> {
    if rs == [] then [r]
    else if Sooner(r, rs[|rs| - 1]) then Placed(rs[..|rs| - 1], r) + [rs[|rs| - 1]]
    else rs + [r]
  }

  function Ordered(rs: seq<Result>): seq<Result> {
    if rs == [] then [] else Placed(Ordered(rs[..|rs| - 1]), rs[|rs| - 1])
  }

  predicate InOrder(rs: seq<Result>) { forall i, j :: 0 <= i < j < |rs| ==> !Sooner(rs[j], rs[i]) }

  lemma StringLessOrder(a: string, b: string, c: string)
    ensures !StringLess(a, a)
    ensures StringLess(a, b) && StringLess(b, c) ==> StringLess(a, c)
    decreases |a|
  {
    if a != "" && b != "" && c != "" {
      StringLessOrder(a[1..], b[1..], c[1..]);
    } else if a != "" {
      StringLessOrder(a[1..], "", "");
    }
  }

  lemma SoonerOrder(a: Result, b: Result, c: Result)
    ensures !Sooner(a, a)
    ensures Sooner(a, b) && Sooner(b, c) ==> Sooner(a, c)
  {
    StringLessOrder(a.source, b.source, c.source);
    StringLessOrder(a.messageId, b.messageId, c.messageId);
  }

  lemma {:induction false} PlacedHas(rs: seq<Result>, r: Result)
    ensures multiset(Placed(rs, r)) == multiset(rs) + multiset{r}
    ensures forall x :: x in Placed(rs, r) <==> x in rs || x == r
    decreases |rs|
  {
    hide Sooner;
    if rs != [] {
      assert rs == rs[..|rs| - 1] + [rs[|rs| - 1]];
      PlacedHas(rs[..|rs| - 1], r);
    }
  }

  lemma {:induction false} PlacedInOrder(rs: seq<Result>, r: Result)
    requires InOrder(rs)
    ensures InOrder(Placed(rs, r))
    decreases |rs|
  {
    if rs != [] {
      var init, last := rs[..|rs| - 1], rs[|rs| - 1];
      assert rs == init + [last];
      hide Sooner;
      if Sooner(r, last) {
        PlacedInOrder(init, r);
        PlacedHas(init, r);
        StaysLast(init, r, last);
        hide InOrder, Placed;
        OrderPush(Placed(init, r), last);
      } else {
        GoesLast(rs, r);
        hide InOrder, Placed;
        OrderPush(rs, r);
      }
    }
  }

  lemma OrderPush(rs: seq<Result>, r: Result)
    requires InOrder(rs) && forall x :: x in rs ==> !Sooner(r, x)
    ensures InOrder(rs + [r])
  {
    hide Sooner;
    forall i | 0 <= i < |rs| ensures !Sooner(r, rs[i]) { assert rs[i] in rs; }
  }

  lemma StaysLast(init: seq<Result>, r: Result, last: Result)
    requires InOrder(init + [last]) && Sooner(r, last)
    ensures forall x :: x in init || x == r ==> !Sooner(last, x)
  {
    SoonerOrder(r, last, r);
    hide Sooner;
    forall x | x in init ensures !Sooner(last, x) {
      var k :| 0 <= k < |init| && init[k] == x;
      assert (init + [last])[k] == x && (init + [last])[|init|] == last;
    }
  }

  lemma GoesLast(rs: seq<Result>, r: Result)
    requires InOrder(rs) && rs != [] && !Sooner(r, rs[|rs| - 1])
    ensures forall x :: x in rs ==> !Sooner(r, x)
  {
    hide Sooner;
    forall x | x in rs ensures !Sooner(r, x) {
      var k :| 0 <= k < |rs| && rs[k] == x;
      if k < |rs| - 1 { BetweenOrder(r, x, rs[|rs| - 1]); }
    }
  }

  /** What is not later than a result is not later than those behind it. */
  lemma BetweenOrder(r: Result, a: Result, last: Result)
    requires !Sooner(r, last) && !Sooner(last, a)
    ensures !Sooner(r, a)
  {
    StringTotal(r.source, last.source);
    StringTotal(last.source, a.source);
    StringTotal(r.messageId, last.messageId);
    StringTotal(last.messageId, a.messageId);
    StringLessOrder(a.source, last.source, r.source);
    StringLessOrder(a.messageId, last.messageId, r.messageId);
    StringLessOrder(r.source, a.source, r.source);
    StringLessOrder(r.messageId, a.messageId, r.messageId);
  }

  lemma {:induction false} StringTotal(a: string, b: string)
    ensures a == b || StringLess(a, b) || StringLess(b, a)
    decreases |a|
  {
    if a != "" && b != "" {
      StringTotal(a[1..], b[1..]);
      assert a == [a[0]] + a[1..] && b == [b[0]] + b[1..];
    }
  }

  /** Sorting permutes the batch and puts higher priorities first. */
  lemma {:induction false} OrderedIs(rs: seq<Result>)
    ensures InOrder(Ordered(rs)) && Descending(Ordered(rs)) && multiset(Ordered(rs)) == multiset(rs)
    ensures forall x :: x in Ordered(rs) <==> x in rs
    decreases |rs|
  {
    if rs != [] {
      OrderedIs(rs[..|rs| - 1]);
      assert rs == rs[..|rs| - 1] + [rs[|rs| - 1]];
      PlacedInOrder(Ordered(rs[..|rs| - 1]), rs[|rs| - 1]);
      PlacedHas(Ordered(rs[..|rs| - 1]), rs[|rs| - 1]);
    }
    InOrderDescending(Ordered(rs));
  }

  lemma InOrderDescending(rs: seq<Result>)
    requires InOrder(rs)
    ensures Descending(rs)
  {
    forall i, j | 0 <= i < j < |rs| ensures rs[j].priority <= rs[i].priority { assert !Sooner(rs[j], rs[i]); }
  }

  /** Where two texts differ first decides: one has ended, or has the smaller character. */
  predicate LessAt(a: string, b: string, k: nat) {
    k <= |a| && k <= |b| && a[..k] == b[..k] && k < |b| && (k < |a| ==> a[k] < b[k])
  }

  lemma {:induction false} StringLessExactly(a: string, b: string)
    ensures StringLess(a, b) <==> exists k: nat :: LessAt(a, b, k)
    decreases |a|
  {
    if b == "" {
      assert forall k: nat :: !LessAt(a, b, k);
    } else if a == "" || a[0] != b[0] {
      assert a[..0] == b[..0] && (StringLess(a, b) ==> LessAt(a, b, 0));
      forall k: nat | LessAt(a, b, k) ensures StringLess(a, b) {
        if k > 0 { assert a[..k][0] == b[..k][0]; }
      }
    } else {
      StringLessExactly(a[1..], b[1..]);
      forall k: nat | LessAt(a[1..], b[1..], k) ensures LessAt(a, b, k + 1) {
        assert a[..k + 1] == [a[0]] + a[1..][..k] && b[..k + 1] == [b[0]] + b[1..][..k];
      }
      forall k: nat | LessAt(a, b, k) ensures k > 0 && LessAt(a[1..], b[1..], k - 1) {
        if k > 0 {
          assert a[1..][..k - 1] == a[..k][1..] && b[1..][..k - 1] == b[..k][1..];
        }
      }
    }
  }

  /** A sorted batch in columns: higher priorities first, then smaller sources, then smaller message ids. */
  lemma OrderedColumns(rs: seq<Result>, i: nat, j: nat)
    requires i < j < |Ordered(rs)|
    ensures var a, b := Ordered(rs)[i], Ordered(rs)[j];
            && a.priority >= b.priority
            && (a.priority == b.priority ==> a.source == b.source || StringLess(a.source, b.source))
            && (a.priority == b.priority && a.source == b.source ==>
                a.messageId == b.messageId || StringLess(a.messageId, b.messageId))
  {
    OrderedIs(rs);
    var a, b := Ordered(rs)[i], Ordered(rs)[j];
    assert !Sooner(b, a);
    StringTotal(a.source, b.source);
    StringTotal(a.messageId, b.messageId);
    hide StringLess, Ordered;
  }

  /** Results of one priority, source and message id. */
  function Alike(rs: seq<Result>, k: Result): (a: seq<Result>)
    ensures forall r :: r in a <==>
              r in rs && r.priority == k.priority && r.source == k.source && r.messageId == k.messageId
  {
    if rs == [] then []
    else
      assert rs == rs[..|rs| - 1] + [rs[|rs| - 1]];
      var init, r := Alike(rs[..|rs| - 1], k), rs[|rs| - 1];
      if r.priority == k.priority && r.source == k.source && r.messageId == k.messageId then init + [r] else init
  }

  lemma {:induction false} PlacedStable(rs: seq<Result>, r: Result, k: Result)
    ensures Alike(Placed(rs, r), k) == Alike(rs + [r], k)
    decreases |rs|
  {
    assert (rs + [r])[..|rs|] == rs;
    if rs != [] && Sooner(r, rs[|rs| - 1]) {
      var init, last := rs[..|rs| - 1], rs[|rs| - 1];
      PlacedStable(init, r, k);
      SoonerOrder(r, last, r);
      StringLessOrder(r.source, r.source, r.source);
      StringLessOrder(r.messageId, r.messageId, r.messageId);
      assert (Placed(init, r) + [last])[..|Placed(init, r)|] == Placed(init, r);
      assert (init + [r])[..|init|] == init;
    }
  }

  /** Results that compare equal keep their order. */
  lemma {:induction false} OrderedStable(rs: seq<Result>, k: Result)
    ensures Alike(Ordered(rs), k) == Alike(rs, k)
    decreases |rs|
  {
    if rs != [] {
      var init, r := rs[..|rs| - 1], rs[|rs| - 1];
      OrderedStable(init, k);
      PlacedStable(Ordered(init), r, k);
      assert (Ordered(init) + [r])[..|Ordered(init)|] == Ordered(init);
    }
  }

  // ----------------------------------------------------------- fallback rules

  /** A batch in which the higher priority comes first. */
  predicate Descending(rs: seq<Result>) { forall i, j :: 0 <= i <= j < |rs| ==> rs[j].priority <= rs[i].priority }

  predicate Accepted(x: Context, r: Result) { IsFallback(r) && x.matches(r) }

  /** What holds in every batch: at most one fallback is saved, and something matched before it. */
  ghost predicate FlagsInv(x: Context, b: Batch, seen: seq<Result>) {
    && (b.fallbackSaved <==> exists i :: 0 <= i < |b.saved| && IsFallback(b.saved[i]))
    && (forall i, j :: 0 <= i < j < |b.saved| ==> !(IsFallback(b.saved[i]) && IsFallback(b.saved[j])))
    && (b.matched.None? <==> forall i :: 0 <= i < |seen| ==> !Accepted(x, seen[i]))
    && (b.fallbackSaved ==> b.matched.Some?)
  }

  /** What holds besides in a batch by priority: the first match is the best, and so is the one saved. */
  ghost predicate FallbackInv(x: Context, b: Batch, seen: seq<Result>) {
    && FlagsInv(x, b, seen)
    && (b.matched.Some? ==> forall i :: 0 <= i < |seen| && Accepted(x, seen[i]) ==> seen[i].priority <= b.matched.value)
    && (forall i :: 0 <= i < |b.saved| && IsFallback(b.saved[i]) ==> b.matched == Some(b.saved[i].priority))
  }

  lemma CanonizedKeeps(r: Result)
    ensures IsFallback(Canonized(r)) == IsFallback(r) && Canonized(r).priority == r.priority
    ensures Canonized(r).title == r.title && Canonized(r).source == r.source
  {
  }

  lemma FlagsStep(x: Context, b: Batch, seen: seq<Result>, r: Result)
    requires FlagsInv(x, b, seen)
    ensures FlagsInv(x, AttachOne(x, b, r), seen + [r])
  {
    var c, now := AttachOne(x, b, r), seen + [r];
    CanonizedKeeps(r);
    hide Blocked, Inserts, Canonized, IsFallback, IsShareUrl;
    assert now[|seen|] == r && forall i :: 0 <= i < |seen| ==> now[i] == seen[i];
    SavedNext(b, c);
  }

  /** What is saved only grows, by at most one. */
  lemma SavedNext(b: Batch, c: Batch)
    ensures |c.saved| > |b.saved| && c.saved == b.saved + [c.saved[|b.saved|]] ==>
              forall i :: 0 <= i < |c.saved| ==> c.saved[i] == if i < |b.saved| then b.saved[i] else c.saved[|b.saved|]
  {
  }

  lemma {:induction false} FlagsRun(x: Context, rows: seq<Listed>, rs: seq<Result>)
    ensures FlagsInv(x, AttachAll(x, Start(rows), rs), rs)
    decreases |rs|
  {
    hide AttachOne, FlagsInv, IsFallback;
    if rs == [] {
      StartFallback(x, rows);
    } else {
      var init, r := rs[..|rs| - 1], rs[|rs| - 1];
      FlagsRun(x, rows, init);
      FlagsStep(x, AttachAll(x, Start(rows), init), init, r);
      assert init + [r] == rs;
    }
  }

  /** What one result can change. */
  lemma OneResult(x: Context, b: Batch, r: Result)
    ensures var c := AttachOne(x, b, r);
            && (c.saved == b.saved || c.saved == b.saved + [Canonized(r)])
            && (c.matched
                == if Accepted(x, r) && b.matched.None? && !b.fallbackSaved then Some(r.priority) else b.matched)
            && (c.saved != b.saved && IsFallback(r) ==>
                Accepted(x, r) && (b.matched.Some? ==> r.priority >= b.matched.value))
  {
    hide Blocked, Inserts, Canonized, IsFallback, IsShareUrl;
  }

  lemma FallbackStep(x: Context, b: Batch, seen: seq<Result>, r: Result)
    requires FallbackInv(x, b, seen)
    requires forall i :: 0 <= i < |seen| ==> r.priority <= seen[i].priority
    ensures FallbackInv(x, AttachOne(x, b, r), seen + [r])
  {
    FlagsStep(x, b, seen, r);
    OneResult(x, b, r);
    CanonizedKeeps(r);
    BestStep(x, b, seen, r, AttachOne(x, b, r));
    hide AttachOne, FlagsInv, IsFallback, Accepted;
  }

  lemma BestStep(x: Context, b: Batch, seen: seq<Result>, r: Result, c: Batch)
    requires FallbackInv(x, b, seen)
    requires forall i :: 0 <= i < |seen| ==> r.priority <= seen[i].priority
    requires c.saved == b.saved || c.saved == b.saved + [Canonized(r)]
    requires c.matched == if Accepted(x, r) && b.matched.None? && !b.fallbackSaved then Some(r.priority) else b.matched
    requires c.saved != b.saved && IsFallback(r) ==>
               Accepted(x, r) && (b.matched.Some? ==> r.priority >= b.matched.value)
    requires IsFallback(Canonized(r)) == IsFallback(r) && Canonized(r).priority == r.priority
    ensures c.matched.Some? ==> forall i :: 0 <= i < |seen + [r]| && Accepted(x, (seen + [r])[i]) ==>
              (seen + [r])[i].priority <= c.matched.value
    ensures forall i :: 0 <= i < |c.saved| && IsFallback(c.saved[i]) ==> c.matched == Some(c.saved[i].priority)
  {
    hide Canonized, IsFallback;
    if b.matched.None? {
      NoneMatchedYet(x, b, seen);
    } else {
      BestSeen(x, b, seen, r);
    }
  }

  /** A later result has at most the priority of the first match. */
  lemma BestSeen(x: Context, b: Batch, seen: seq<Result>, r: Result)
    requires FallbackInv(x, b, seen) && b.matched.Some?
    requires forall i :: 0 <= i < |seen| ==> r.priority <= seen[i].priority
    ensures r.priority <= b.matched.value
  {
    hide IsFallback;
    assert exists i :: 0 <= i < |seen| && Accepted(x, seen[i]);
  }

  lemma {:induction false} FallbackRun(x: Context, rows: seq<Listed>, rs: seq<Result>)
    requires Descending(rs)
    ensures FallbackInv(x, AttachAll(x, Start(rows), rs), rs)
    decreases |rs|
  {
    hide AttachOne, FallbackInv;
    if rs == [] {
      StartFallback(x, rows);
    } else {
      var init, r := rs[..|rs| - 1], rs[|rs| - 1];
      FallbackRun(x, rows, init);
      FallbackStep(x, AttachAll(x, Start(rows), init), init, r);
      assert init + [r] == rs;
    }
  }

  lemma StartFallback(x: Context, rows: seq<Listed>)
    ensures FallbackInv(x, Start(rows), []) && FlagsInv(x, Start(rows), [])
  {
  }

  /** At most one fallback is saved, in whatever order the results come. */
  lemma AtMostOneFallback(x: Context, rows: seq<Listed>, rs: seq<Result>, i: nat, j: nat)
    requires i < j < |AttachAll(x, Start(rows), rs).saved|
    ensures var saved := AttachAll(x, Start(rows), rs).saved; !(IsFallback(saved[i]) && IsFallback(saved[j]))
  {
    FlagsRun(x, rows, rs);
    hide AttachAll, IsFallback;
  }

  /** Of any batch, sorted as the program sorts it, the fallback that is saved has the highest
      priority of all fallbacks of the batch that match the subscription. */
  lemma BestFallback(x: Context, rows: seq<Listed>, rs: seq<Result>, s: Result, r: Result)
    requires s in AttachAll(x, Start(rows), Ordered(rs)).saved && IsFallback(s)
    requires r in rs && Accepted(x, r)
    ensures r.priority <= s.priority
  {
    OrderedIs(rs);
    FallbackRun(x, rows, Ordered(rs));
    hide AttachAll, IsFallback, Ordered;
    var b := AttachAll(x, Start(rows), Ordered(rs));
    assert r in Ordered(rs);
  }

  /** The priority of the first fallback that matches. */
  function FirstMatch(x: Context, rs: seq<Result>): Option<int> {
    if rs == [] then None
    else
      var first, r := FirstMatch(x, rs[..|rs| - 1]), rs[|rs| - 1];
      if first.None? && Accepted(x, r) then Some(r.priority) else first
  }

  /** A result matches as a fallback with at least the priority of the first match, no primary
      resource blocks it, and it can be inserted. */
  predicate ChanceIn(x: Context, b: Batch, first: Option<int>, r: Result) {
    && Accepted(x, r) && (first.Some? ==> r.priority >= first.value)
    && !Blocked(x, b.primaries, r) && Inserts(x, b.rows, Canonized(r))
  }

  /** Result k has its chance when its turn comes. */
  predicate Chance(x: Context, rows: seq<Listed>, rs: seq<Result>, k: nat)
    requires k < |rs|
  {
    ChanceIn(x, AttachAll(x, Start(rows), rs[..k]), FirstMatch(x, rs[..k]), rs[k])
  }

  predicate AnyChance(x: Context, rows: seq<Listed>, rs: seq<Result>) {
    exists k :: 0 <= k < |rs| && Chance(x, rows, rs, k)
  }

  lemma AnyChanceLast(x: Context, rows: seq<Listed>, rs: seq<Result>)
    requires rs != []
    ensures var n := |rs| - 1;
            AnyChance(x, rows, rs) <==> AnyChance(x, rows, rs[..n]) || Chance(x, rows, rs, n)
  {
    hide ChanceIn, AttachAll, FirstMatch;
    var n := |rs| - 1;
    var init := rs[..n];
    forall k | 0 <= k < n ensures Chance(x, rows, init, k) <==> Chance(x, rows, rs, k) {
      assert init[..k] == rs[..k] && init[k] == rs[k];
    }
    hide Chance;
  }

  /** One result decides on the fallback. */
  lemma SavedByOne(x: Context, b: Batch, r: Result)
    requires b.fallbackSaved ==> b.matched.Some?
    ensures AttachOne(x, b, r).matched == if b.matched.None? && Accepted(x, r) then Some(r.priority) else b.matched
    ensures AttachOne(x, b, r).fallbackSaved <==> b.fallbackSaved || ChanceIn(x, b, b.matched, r)
  {
    hide Blocked, Inserts, Canonized, IsFallback, IsShareUrl;
  }

  lemma {:induction false} SavedByChance(x: Context, rows: seq<Listed>, rs: seq<Result>)
    ensures AttachAll(x, Start(rows), rs).matched == FirstMatch(x, rs)
    ensures AttachAll(x, Start(rows), rs).fallbackSaved <==> AnyChance(x, rows, rs)
    decreases |rs|
  {
    if rs != [] {
      var init, r := rs[..|rs| - 1], rs[|rs| - 1];
      FlagsSome(x, rows, init);
      AnyChanceLast(x, rows, rs);
      hide AttachOne, Accepted, ChanceIn, AnyChance, Start;
      SavedByChance(x, rows, init);
      SavedByOne(x, AttachAll(x, Start(rows), init), r);
    }
  }

  lemma FlagsSome(x: Context, rows: seq<Listed>, rs: seq<Result>)
    ensures var b := AttachAll(x, Start(rows), rs); b.fallbackSaved ==> b.matched.Some?
  {
    FlagsRun(x, rows, rs);
    hide AttachAll, IsFallback, Accepted;
  }

  /** A fallback is saved exactly if one has its chance, in whatever order the results come. */
  lemma FallbackSavedExactly(x: Context, rows: seq<Listed>, rs: seq<Result>)
    ensures (exists s :: s in AttachAll(x, Start(rows), rs).saved && IsFallback(s))
            <==> exists k :: 0 <= k < |rs| && Chance(x, rows, rs, k)
  {
    FlagsRun(x, rows, rs);
    SavedByChance(x, rows, rs);
    hide AttachAll, IsFallback, Accepted, Chance;
    var b := AttachAll(x, Start(rows), rs);
    if i :| 0 <= i < |b.saved| && IsFallback(b.saved[i]) {
      assert b.saved[i] in b.saved;
    }
  }

  /** And it is the first that has. */
  lemma FirstChanceSaved(x: Context, rows: seq<Listed>, rs: seq<Result>, k: nat)
    requires k < |rs| && Chance(x, rows, rs, k)
    requires forall i :: 0 <= i < k ==> !Chance(x, rows, rs, i)
    ensures Canonized(rs[k]) in AttachAll(x, Start(rows), rs).saved
  {
    hide *;
    var before := rs[..k];
    NoChanceBefore(x, rows, rs, k);
    SavedByChance(x, rows, before);
    ChanceAt(x, rows, rs, k);
    var b := AttachAll(x, Start(rows), before);
    ChanceSaves(x, b, rs[k]);
    AttachNext(x, Start(rows), rs, k);
    SavedGrows(x, Start(rows), rs, k + 1);
  }

  lemma NoChanceBefore(x: Context, rows: seq<Listed>, rs: seq<Result>, k: nat)
    requires k < |rs| && forall i :: 0 <= i < k ==> !Chance(x, rows, rs, i)
    ensures !AnyChance(x, rows, rs[..k])
  {
    hide ChanceIn, AttachAll, FirstMatch;
    var before := rs[..k];
    forall i | 0 <= i < k ensures !Chance(x, rows, before, i) {
      assert !Chance(x, rows, rs, i);
      assert before[..i] == rs[..i] && before[i] == rs[i];
    }
    hide Chance;
  }

  lemma ChanceAt(x: Context, rows: seq<Listed>, rs: seq<Result>, k: nat)
    requires k < |rs|
    ensures Chance(x, rows, rs, k) == ChanceIn(x, AttachAll(x, Start(rows), rs[..k]), FirstMatch(x, rs[..k]), rs[k])
  {
    hide ChanceIn, AttachAll, FirstMatch, Start;
  }

  lemma ChanceSaves(x: Context, b: Batch, r: Result)
    requires !b.fallbackSaved && ChanceIn(x, b, b.matched, r)
    ensures Canonized(r) in AttachOne(x, b, r).saved
  {
    hide Blocked, Inserts, Canonized, IsFallback, IsShareUrl;
    assert AttachOne(x, b, r).saved[|b.saved|] == Canonized(r);
  }

  /** In a batch by priority the first match has the top priority, so only matches of that
      priority can have their chance. */
  lemma {:induction false} FirstMatchIsTop(x: Context, rs: seq<Result>)
    requires Descending(rs)
    ensures FirstMatch(x, rs).None? <==> forall j :: 0 <= j < |rs| ==> !Accepted(x, rs[j])
    ensures FirstMatch(x, rs).Some? ==>
              && (forall j :: 0 <= j < |rs| && Accepted(x, rs[j]) ==> rs[j].priority <= FirstMatch(x, rs).value)
              && exists j :: 0 <= j < |rs| && Accepted(x, rs[j]) && rs[j].priority == FirstMatch(x, rs).value
    decreases |rs|
  {
    hide Accepted;
    if rs != [] {
      var n := |rs| - 1;
      var init := rs[..n];
      FirstMatchIsTop(x, init);
      assert forall j :: 0 <= j < n ==> init[j] == rs[j];
      if FirstMatch(x, init).Some? {
        var j :| 0 <= j < n && Accepted(x, init[j]) && init[j].priority == FirstMatch(x, init).value;
        assert rs[j].priority == FirstMatch(x, rs).value && rs[n].priority <= rs[j].priority;
      }
    }
  }

  /** Of a batch as the program sorts it, a fallback is saved exactly if some match of the highest
      priority is, at its turn, neither blocked nor refused. */
  lemma TopFallbackSavedExactly(x: Context, rows: seq<Listed>, batch: seq<Result>)
    ensures var rs := Ordered(batch);
            (exists s :: s in AttachAll(x, Start(rows), rs).saved && IsFallback(s))
            <==> exists k :: 0 <= k < |rs| && TopChance(x, rows, rs, k)
  {
    var rs := Ordered(batch);
    OrderedIs(batch);
    FallbackSavedExactly(x, rows, rs);
    forall k | 0 <= k < |rs| ensures Chance(x, rows, rs, k) <==> TopChance(x, rows, rs, k) {
      ChanceIsTop(x, rows, rs, k);
    }
    hide Ordered, AttachAll, IsFallback, Chance, TopChance;
  }

  predicate TopChance(x: Context, rows: seq<Listed>, rs: seq<Result>, k: nat)
    requires k < |rs|
  {
    var b := AttachAll(x, Start(rows), rs[..k]);
    && Accepted(x, rs[k]) && (forall j :: 0 <= j < |rs| && Accepted(x, rs[j]) ==> rs[j].priority <= rs[k].priority)
    && !Blocked(x, b.primaries, rs[k]) && Inserts(x, b.rows, Canonized(rs[k]))
  }

  lemma ChanceIsTop(x: Context, rows: seq<Listed>, rs: seq<Result>, k: nat)
    requires Descending(rs) && k < |rs|
    ensures Chance(x, rows, rs, k) <==> TopChance(x, rows, rs, k)
  {
    hide AttachAll, Accepted, Blocked, Inserts, Canonized, Start;
    var before := rs[..k];
    assert forall j :: 0 <= j < k ==> before[j] == rs[j];
    FirstMatchIsTop(x, before);
    hide FirstMatch;
    if Accepted(x, rs[k]) && FirstMatch(x, before).Some? {
      var i :| 0 <= i < k && Accepted(x, before[i]) && before[i].priority == FirstMatch(x, before).value;
      assert Accepted(x, rs[i]);
      forall j | 0 <= j < |rs| && Accepted(x, rs[j]) && rs[k].priority >= rs[i].priority
        ensures rs[j].priority <= rs[k].priority
      {
        assert j < k ==> before[j] == rs[j];
      }
    }
  }

  lemma {:induction false} SavedGrows(x: Context, b: Batch, rs: seq<Result>, k: nat)
    requires k <= |rs|
    ensures AttachAll(x, b, rs[..k]).saved <= AttachAll(x, b, rs).saved
    decreases |rs|
  {
    hide Blocked, Inserts, Canonized, IsFallback, IsShareUrl;
    if k < |rs| {
      assert rs[..|rs| - 1][..k] == rs[..k];
      SavedGrows(x, b, rs[..|rs| - 1], k);
    } else {
      assert rs[..k] == rs;
    }
  }

  /** The first fallback that matches gets its chance, in whatever order the results come: unless
      a primary resource blocks it or it cannot be inserted, it is the one that is saved. */
  lemma FirstFallbackSaved(x: Context, rows: seq<Listed>, rs: seq<Result>, k: nat)
    requires k < |rs| && Accepted(x, rs[k])
    requires forall i :: 0 <= i < k ==> !Accepted(x, rs[i])
    requires !Blocked(x, AttachAll(x, Start(rows), rs[..k]).primaries, rs[k])
    requires Inserts(x, AttachAll(x, Start(rows), rs[..k]).rows, Canonized(rs[k]))
    ensures Canonized(rs[k]) in AttachAll(x, Start(rows), rs).saved
  {
    hide Blocked, Inserts, Canonized, IsFallback, IsShareUrl, AttachAll, AttachOne;
    var before := rs[..k];
    FlagsRun(x, rows, before);
    var b := AttachAll(x, Start(rows), before);
    assert forall i :: 0 <= i < |before| ==> before[i] == rs[i];
    NoneMatchedYet(x, b, before);
    FirstStep(x, b, rs[k]);
    AttachNext(x, Start(rows), rs, k);
    SavedGrows(x, Start(rows), rs, k + 1);
  }

  lemma NoneMatchedYet(x: Context, b: Batch, seen: seq<Result>)
    requires FlagsInv(x, b, seen) && (b.matched.None? || forall i :: 0 <= i < |seen| ==> !Accepted(x, seen[i]))
    ensures b.matched.None? && !b.fallbackSaved && forall i :: 0 <= i < |seen| ==> !Accepted(x, seen[i])
  {
    hide IsFallback, Accepted;
  }

  lemma FirstStep(x: Context, b: Batch, r: Result)
    requires b.matched.None? && !b.fallbackSaved && x.matches(r)
    requires !Blocked(x, b.primaries, r) && Inserts(x, b.rows, Canonized(r))
    ensures Canonized(r) in AttachOne(x, b, r).saved
  {
    hide Blocked, Inserts, Canonized, IsFallback, IsShareUrl;
    assert AttachOne(x, b, r).saved[|b.saved|] == Canonized(r);
  }

  // ------------------------------------------------------------ what is saved

  /** The rows are the saved ones, newest first, on top of the rows there were; each was no
      duplicate of the rows below it. */
  ghost predicate SavedInv(x: Context, b: Batch, rows: seq<Listed>) {
    && |b.rows| == |b.saved| + |rows| && b.rows[|b.saved|..] == rows
    && (forall k :: 0 <= k < |b.saved| ==> b.rows[|b.saved| - 1 - k] == RowOf(b.saved[k]))
    && (forall k :: 0 <= k < |b.saved| ==> Inserts(x, b.rows[|b.saved| - k..], b.saved[k]))
    && b.primaries == Primaries(b.rows)
  }

  lemma SavedStep(x: Context, b: Batch, rows: seq<Listed>, r: Result)
    requires SavedInv(x, b, rows)
    ensures SavedInv(x, AttachOne(x, b, r), rows)
  {
    var c := AttachOne(x, b, r);
    hide Blocked, Inserts, Canonized, IsFallback, IsShareUrl, Primaries;
    if |c.saved| > |b.saved| {
      SavedPush(x, b, rows, Canonized(r), c);
    }
  }

  lemma SavedPush(x: Context, b: Batch, rows: seq<Listed>, s: Result, c: Batch)
    requires SavedInv(x, b, rows) && Inserts(x, b.rows, s)
    requires c.rows == [RowOf(s)] + b.rows && c.saved == b.saved + [s]
    requires c.primaries == if IsShareUrl(s.url) then [RowOf(s)] + b.primaries else b.primaries
    ensures SavedInv(x, c, rows)
  {
    PrimariesPush(b.rows, s);
    hide Inserts, IsShareUrl, Primaries;
    var n := |b.saved|;
    assert c.rows[n + 1..] == b.rows[n..];
    forall k | 0 <= k < n + 1
      ensures c.rows[n - k] == RowOf(c.saved[k]) && Inserts(x, c.rows[n + 1 - k..], c.saved[k])
    {
      SavedAt(x, b, rows, s, c, k);
    }
  }

  lemma SavedAt(x: Context, b: Batch, rows: seq<Listed>, s: Result, c: Batch, k: nat)
    requires SavedInv(x, b, rows) && Inserts(x, b.rows, s) && k <= |b.saved|
    requires c.rows == [RowOf(s)] + b.rows && c.saved == b.saved + [s]
    ensures c.rows[|b.saved| - k] == RowOf(c.saved[k]) && Inserts(x, c.rows[|b.saved| + 1 - k..], c.saved[k])
  {
    hide Inserts, Primaries;
    var n := |b.saved|;
    if k < n {
      assert c.rows[n - k] == b.rows[n - 1 - k] && c.saved[k] == b.saved[k];
      assert c.rows[n + 1 - k..] == b.rows[n - k..];
    } else {
      assert c.rows[1..] == b.rows;
    }
  }

  lemma PrimariesPush(rows: seq<Listed>, s: Result)
    ensures Primaries([RowOf(s)] + rows) == if IsShareUrl(s.url) then [RowOf(s)] + Primaries(rows) else Primaries(rows)
  {
    hide IsShareUrl;
    assert ([RowOf(s)] + rows)[1..] == rows;
    assert "pending" !in UNUSABLE by {
      assert |"pending"| == 7 && |"skipped"| == 7 && "pending"[0] != "skipped"[0];
      assert |"failed"| == 6 && |"pending_recheck"| == 15 && |"link_invalid"| == 12;
      assert |"delivery_failed_final"| == 21 && |"delivery_failed_retryable"| == 25;
    }
  }

  lemma {:induction false} SavedRun(x: Context, rows: seq<Listed>, rs: seq<Result>)
    ensures SavedInv(x, AttachAll(x, Start(rows), rs), rows)
    decreases |rs|
  {
    hide AttachOne, Inserts, Primaries;
    if rs != [] {
      SavedRun(x, rows, rs[..|rs| - 1]);
      SavedStep(x, AttachAll(x, Start(rows), rs[..|rs| - 1]), rows, rs[|rs| - 1]);
    }
  }

  /** The list of primary resources that the loop keeps by hand is always what querying the
      rows afresh would give. */
  lemma PrimariesCurrent(x: Context, rows: seq<Listed>, rs: seq<Result>)
    ensures AttachAll(x, Start(rows), rs).primaries == Primaries(AttachAll(x, Start(rows), rs).rows)
  {
    SavedRun(x, rows, rs);
  }

  lemma NoReasonMeans(x: Context, rows: seq<Listed>, s: Result, k: nat)
    requires Inserts(x, rows, s) && k < |rows| && Effective(rows[k].status)
    ensures rows[k].url != s.url
    ensures DedupeKey(s.url).Some? ==> DedupeKey(rows[k].url) != DedupeKey(s.url)
    ensures var e := x.facts.episodes(x.sub, CandidateText(x.facts, s));
            e != {} ==> !(e <= x.facts.episodes(x.sub, rows[k].title))
  {
    var c := CandidateOf(x.facts, x.sub, s);
    hide DedupeKey, Effective, SimilarTo;
    assert !Reported(x.facts, x.sub, c, rows, CoveredEpisodes) && !Reported(x.facts, x.sub, c, rows, SimilarTitle);
    assert c.key.Some? ==> !Reported(x.facts, x.sub, c, rows, Same(c.key.value.kind));
    assert RowReason(x.facts, x.sub, c, rows[k]) != Some(CoveredEpisodes);
    assert c.key.Some? ==> RowReason(x.facts, x.sub, c, rows[k]) != Some(Same(c.key.value.kind));
  }

  /** No saved row shares its key with an effective row below it, has its URL, or names
      episodes that such a row covers. */
  lemma NothingSavedTwice(x: Context, rows: seq<Listed>, rs: seq<Result>, k: nat, j: nat)
    requires k < |AttachAll(x, Start(rows), rs).saved|
    requires var b := AttachAll(x, Start(rows), rs);
             |b.saved| - k <= j < |b.rows| && Effective(b.rows[j].status)
    ensures var b := AttachAll(x, Start(rows), rs);
            && |b.saved| <= |b.rows| && b.rows[|b.saved| - 1 - k] == RowOf(b.saved[k])
            && b.rows[j].url != b.saved[k].url
            && (DedupeKey(b.saved[k].url).Some? ==> DedupeKey(b.rows[j].url) != DedupeKey(b.saved[k].url))
            && (var e := x.facts.episodes(x.sub, CandidateText(x.facts, b.saved[k]));
                e != {} ==> !(e <= x.facts.episodes(x.sub, b.rows[j].title)))
  {
    SavedRun(x, rows, rs);
    hide AttachAll, DedupeKey, Effective, Inserts, CandidateText, Primaries, Start, RowOf;
    var b := AttachAll(x, Start(rows), rs);
    var below, at := b.rows[|b.saved| - k..], j - (|b.saved| - k);
    assert below[at] == b.rows[j];
    hide SavedInv;
    NoReasonMeans(x, below, b.saved[k], at);
  }

  // ------------------------------------------------------------ nothing lost

  /** Something in the rows speaks for this result: its URL, or a reason to call it a duplicate. */
  ghost predicate Represented(x: Context, rows: seq<Listed>, s: Result) {
    HasUrl(rows, s.url) || Strongest(x.facts, x.sub, CandidateOf(x.facts, x.sub, s), rows).Some?
  }

  lemma RepresentedGrows(x: Context, rows: seq<Listed>, row: Listed, s: Result)
    requires Represented(x, rows, s)
    ensures Represented(x, [row] + rows, s)
  {
    hide RowReason, CandidateOf;
    var more := [row] + rows;
    var c := CandidateOf(x.facts, x.sub, s);
    assert forall k :: 0 <= k < |rows| ==> more[k + 1] == rows[k];
    forall reason | Reported(x.facts, x.sub, c, rows, reason) ensures Reported(x.facts, x.sub, c, more, reason) {
      var k :| 0 <= k < |rows| && RowReason(x.facts, x.sub, c, rows[k]) == Some(reason);
      assert RowReason(x.facts, x.sub, c, more[k + 1]) == Some(reason);
    }
    if HasUrl(rows, s.url) {
      var k :| 0 <= k < |rows| && rows[k].url == s.url;
      assert more[k + 1].url == s.url;
    }
  }

  /** A result of a primary source that matches, with a valid link and allowed. */
  predicate Eligible(x: Context, r: Result) {
    !IsFallback(r) && x.matches(r) && x.validLink(Canonized(r).url) && x.allowed(Canonized(r))
  }

  lemma EligibleStep(x: Context, b: Batch, r: Result)
    requires Eligible(x, r)
    ensures Represented(x, AttachOne(x, b, r).rows, Canonized(r))
  {
    hide Strongest, CandidateOf, Canonized, IsFallback, IsShareUrl;
    var s := Canonized(r);
    if Inserts(x, b.rows, s) {
      assert AttachOne(x, b, r).rows[0].url == s.url;
    }
  }

  lemma OneRowMore(x: Context, b: Batch, r: Result)
    ensures var c := AttachOne(x, b, r); c.rows == b.rows || exists row :: c.rows == [row] + b.rows
  {
    hide Blocked, Inserts, Canonized, IsFallback, IsShareUrl;
  }

  /** No eligible result of a primary source is lost: when the batch is through, it was saved or
      the rows hold its URL or a duplicate of it. */
  lemma {:induction false} NoEligibleLost(x: Context, rows: seq<Listed>, rs: seq<Result>, k: nat)
    requires k < |rs| && Eligible(x, rs[k])
    ensures Represented(x, AttachAll(x, Start(rows), rs).rows, Canonized(rs[k]))
    decreases |rs|
  {
    hide AttachOne, Eligible, Represented, Canonized;
    var init, r := rs[..|rs| - 1], rs[|rs| - 1];
    var b := AttachAll(x, Start(rows), init);
    if k == |rs| - 1 {
      EligibleStep(x, b, r);
    } else {
      NoEligibleLost(x, rows, init, k);
      OneRowMore(x, b, r);
      if AttachOne(x, b, r).rows != b.rows {
        var row :| AttachOne(x, b, r).rows == [row] + b.rows;
        RepresentedGrows(x, b.rows, row, Canonized(rs[k]));
      }
    }
  }

  /** The result names episodes, no row has its URL, and no effective row has its key or all its episodes. */
  ghost predicate Unseen(x: Context, held: seq<Listed>, s: Result) {
    var c := CandidateOf(x.facts, x.sub, s);
    c.episodes != {} && forall j :: 0 <= j < |held| ==>
      held[j].url != s.url && !SameKeyRow(c, held[j]) && !CoveringRow(x.facts, x.sub, c, held[j])
  }

  /** An episode that no row covers is never lost: at its turn, a result of a primary source is saved if
      its link is new and some row covers not all episodes it names. */
  lemma NewEpisodesSaved(x: Context, rows: seq<Listed>, rs: seq<Result>, k: nat)
    requires k < |rs| && Eligible(x, rs[k])
    requires Unseen(x, AttachAll(x, Start(rows), rs[..k]).rows, Canonized(rs[k]))
    ensures Canonized(rs[k]) in AttachAll(x, Start(rows), rs).saved
  {
    var b, s := AttachAll(x, Start(rows), rs[..k]), Canonized(rs[k]);
    hide *;
    EligibleParts(x, rs[k]);
    NewInserts(x, b.rows, s);
    EligibleSaved(x, b, rs[k]);
    AttachNext(x, Start(rows), rs, k);
    SavedGrows(x, Start(rows), rs, k + 1);
  }

  lemma NewInserts(x: Context, held: seq<Listed>, s: Result)
    requires x.validLink(s.url) && x.allowed(s)
    requires Unseen(x, held, s)
    ensures Inserts(x, held, s)
  {
    InsertsExactly(x, held, s);
    hide Inserts, CandidateOf, SameKeyRow, CoveringRow;
  }

  lemma EligibleParts(x: Context, r: Result)
    requires Eligible(x, r)
    ensures x.validLink(Canonized(r).url) && x.allowed(Canonized(r))
  {
  }

  lemma EligibleSaved(x: Context, b: Batch, r: Result)
    requires Eligible(x, r) && Inserts(x, b.rows, Canonized(r))
    ensures Canonized(r) in AttachOne(x, b, r).saved
  {
    hide Inserts, Canonized, IsFallback, IsShareUrl;
    assert AttachOne(x, b, r).saved[|b.saved|] == Canonized(r);
  }

  /** Of the results saved from one batch no two share a key or a URL, nor does one cover the episodes
      of a later one. */
  lemma SavedApart(x: Context, rows: seq<Listed>, rs: seq<Result>, i: nat, k: nat)
    requires i < k < |AttachAll(x, Start(rows), rs).saved|
    ensures var a, b := AttachAll(x, Start(rows), rs).saved[i], AttachAll(x, Start(rows), rs).saved[k];
            && a.url != b.url && (DedupeKey(b.url).Some? ==> DedupeKey(a.url) != DedupeKey(b.url))
            && (var e := x.facts.episodes(x.sub, CandidateText(x.facts, b));
                e != {} ==> !(e <= x.facts.episodes(x.sub, a.title)))
  {
    hide AttachAll, DedupeKey, Effective, CandidateText, Start, SavedInv, RowOf;
    var b := AttachAll(x, Start(rows), rs);
    SavedRowAt(x, rows, rs, i);
    NothingSavedTwice(x, rows, rs, k, |b.saved| - 1 - i);
  }

  /** A saved result stands in the rows, and counts. */
  lemma SavedRowAt(x: Context, rows: seq<Listed>, rs: seq<Result>, i: nat)
    requires i < |AttachAll(x, Start(rows), rs).saved|
    ensures var b := AttachAll(x, Start(rows), rs); var j := |b.saved| - 1 - i;
            && |b.saved| <= |b.rows| && b.rows[j].title == b.saved[i].title && b.rows[j].url == b.saved[i].url
            && Effective(b.rows[j].status)
  {
    SavedRun(x, rows, rs);
    EffectiveWords();
    hide AttachAll, Inserts, Primaries, Start, Effective;
    var b := AttachAll(x, Start(rows), rs);
    assert b.rows[|b.saved| - 1 - i] == RowOf(b.saved[i]);
  }

  // ------------------------------------------------------------- a second pass

  predicate Grown(held: seq<Listed>, rows: seq<Listed>) { |held| <= |rows| && rows[|rows| - |held|..] == held }

  lemma {:induction false} GrownRepresents(x: Context, held: seq<Listed>, rows: seq<Listed>, s: Result)
    requires Grown(held, rows) && Represented(x, held, s)
    ensures Represented(x, rows, s)
    decreases |rows|
  {
    hide Represented;
    if |rows| == |held| {
      assert rows == held;
    } else {
      assert rows == [rows[0]] + rows[1..] && Grown(held, rows[1..]);
      GrownRepresents(x, held, rows[1..], s);
      RepresentedGrows(x, rows[1..], rows[0], s);
    }
  }

  /** What a batch has put into the rows. */
  ghost predicate Settled(x: Context, held: seq<Listed>, rs: seq<Result>) {
    forall k :: 0 <= k < |rs| && Eligible(x, rs[k]) ==> Represented(x, held, Canonized(rs[k]))
  }

  /** What one result can add. */
  lemma OneAdds(x: Context, b: Batch, r: Result)
    ensures var c := AttachOne(x, b, r);
            || (c.rows == b.rows && c.saved == b.saved)
            || (&& c.rows == [RowOf(Canonized(r))] + b.rows && c.saved == b.saved + [Canonized(r)]
                && x.matches(r) && Inserts(x, b.rows, Canonized(r)))
  {
    hide Blocked, Inserts, Canonized, IsFallback, IsShareUrl;
  }

  lemma InsertsUnrepresented(x: Context, rows: seq<Listed>, r: Result)
    requires x.matches(r) && Inserts(x, rows, Canonized(r)) && !IsFallback(r)
    ensures Eligible(x, r) && !Represented(x, rows, Canonized(r))
  {
    hide Canonized, IsFallback, Strongest, CandidateOf, HasUrl;
  }

  lemma SettledStep(x: Context, held: seq<Listed>, b: Batch, r: Result)
    requires Grown(held, b.rows) && (forall s :: s in b.saved ==> IsFallback(s))
    requires Eligible(x, r) ==> Represented(x, held, Canonized(r))
    ensures var c := AttachOne(x, b, r); Grown(held, c.rows) && forall s :: s in c.saved ==> IsFallback(s)
  {
    OneAdds(x, b, r);
    CanonizedKeeps(r);
    hide AttachOne, Eligible, Represented, Canonized, IsFallback, Inserts, RowOf;
    if !IsFallback(r) && x.matches(r) && Inserts(x, b.rows, Canonized(r)) {
      InsertsUnrepresented(x, b.rows, r);
      GrownRepresents(x, held, b.rows, Canonized(r));
    }
    var c := AttachOne(x, b, r);
    if c.rows != b.rows { assert c.rows[|c.rows| - |held|..] == b.rows[|b.rows| - |held|..]; }
  }

  lemma {:induction false} SettledRun(x: Context, held: seq<Listed>, rs: seq<Result>, n: nat)
    requires Settled(x, held, rs) && n <= |rs|
    ensures var b := AttachAll(x, Start(held), rs[..n]);
            Grown(held, b.rows) && forall s :: s in b.saved ==> IsFallback(s)
  {
    if n > 0 {
      hide AttachAll, AttachOne, Eligible, Represented, Canonized, IsFallback, Grown;
      SettledRun(x, held, rs, n - 1);
      AttachNext(x, Start(held), rs, n - 1);
      SettledStep(x, held, AttachAll(x, Start(held), rs[..n - 1]), rs[n - 1]);
    }
  }

  /** The same batch again saves no result of a primary source. */
  lemma SecondPassSavesNoPrimary(x: Context, rows: seq<Listed>, rs: seq<Result>, s: Result)
    requires s in AttachAll(x, Start(AttachAll(x, Start(rows), rs).rows), rs).saved
    ensures IsFallback(s)
  {
    var held := AttachAll(x, Start(rows), rs).rows;
    assert Settled(x, held, rs) by {
      hide AttachAll, Eligible, Represented, Canonized, Start;
      forall k | 0 <= k < |rs| && Eligible(x, rs[k]) ensures Represented(x, held, Canonized(rs[k])) {
        NoEligibleLost(x, rows, rs, k);
      }
    }
    hide *;
    SettledRun(x, held, rs, |rs|);
    assert rs[..|rs|] == rs;
  }
}
