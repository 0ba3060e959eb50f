/**
 The two independent run-length encoders for sets of episode keys: the labels of
 `episode_range_labels` and the summary of `_episode_range_summary`, before formatting and
 truncation.
 */
module EpisodeRuns {
  import opened EpisodeKeys
  import opened IntSets
  import opened PyText

  datatype Run = Run(season: int, lo: int, hi: int)

  // ------------------------------------------------------------------ sorting

  predicate Ascending(a: seq<int>) { forall i, j :: 0 <= i < j < |a| ==> a[i] < a[j] }

  function SortedInts(s: set<int>): (r: seq<int>)
    ensures Ascending(r) && forall x :: x in r <==> x in s
  {
    if s == {} then [] else [Lowest(s)] + SortedInts(s - {Lowest(s)})
  }

  predicate KeyLess(a: EpisodeKey, b: EpisodeKey) { a.0 < b.0 || (a.0 == b.0 && a.1 < b.1) }

  predicate AscendingKeys(a: seq<EpisodeKey>) { forall i, j :: 0 <= i < j < |a| ==> KeyLess(a[i], a[j]) }

  function Seasons(keys: set<EpisodeKey>): set<int> { set k | k in keys :: k.0 }

  function EpisodesOf(keys: set<EpisodeKey>, season: int): set<int> { set k | k in keys && k.0 == season :: k.1 }

  /** The key that comes first: the lowest episode of the lowest season. */
  function LowestKey(keys: set<EpisodeKey>): (m: EpisodeKey)
    requires keys != {}
    ensures m in keys && forall k :: k in keys && k != m ==> KeyLess(m, k)
  {
    LowestKeyExists(keys);
    var m :| m in keys && forall k :: k in keys && k != m ==> KeyLess(m, k);
    m
  }

  lemma LowestKeyExists(keys: set<EpisodeKey>)
    requires keys != {}
    ensures exists m :: m in keys && forall k :: k in keys && k != m ==> KeyLess(m, k)
  {
    var any := Member(keys);
    assert any.0 in Seasons(keys);
    var season := Lowest(Seasons(keys));
    assert exists k :: k in keys && k.0 == season;
    var some :| some in keys && some.0 == season;
    assert some.1 in EpisodesOf(keys, season);
    var m := (season, Lowest(EpisodesOf(keys, season)));
    assert m in keys;
    forall k | k in keys && k != m ensures KeyLess(m, k) {
      assert k.0 in Seasons(keys);
      assert k.0 == season ==> k.1 in EpisodesOf(keys, season);
    }
  }

  function SortedKeys(keys: set<EpisodeKey>): (r: seq<EpisodeKey>)
    ensures AscendingKeys(r) && forall k :: k in r <==> k in keys
  {
    if keys == {} then [] else [LowestKey(keys)] + SortedKeys(keys - {LowestKey(keys)})
  }

  /** A set has one ascending listing. */
  lemma {:induction false} AscendingUnique(a: seq<int>, b: seq<int>)
    requires Ascending(a) && Ascending(b) && forall x :: x in a <==> x in b
    ensures a == b
    decreases |a|
  {
    if b != [] {
      assert b[0] in b;
      assert b[0] in a;
    }
    if a != [] {
      assert a[0] in a;
      assert a[0] in b;
      assert a[0] == b[0];
      forall x | x in a[1..] ensures x in b[1..] { assert x in b && x != b[0]; }
      forall x | x in b[1..] ensures x in a[1..] { assert x in a && x != a[0]; }
      AscendingUnique(a[1..], b[1..]);
    }
  }

  // ---------------------------------------------------------- runs of a listing

  /** Runs of consecutive numbers in an ascending listing, left to right. */
  function RunsOf(season: int, a: seq<int>): (r: seq<Run>)
    ensures a != [] ==> r != [] && r[|r| - 1].hi == a[|a| - 1]
  {
    if a == [] then []
    else
      var n, init := |a| - 1, RunsOf(season, a[..|a| - 1]);
      if init != [] && init[|init| - 1].hi + 1 == a[n] then init[|init| - 1 := init[|init| - 1].(hi := a[n])]
      else init + [Run(season, a[n], a[n])]
  }

  /** The runs of a key set: season by season. */
  function RunsBySeason(keys: set<EpisodeKey>, seasons: seq<int>): seq<Run> {
    if seasons == [] then []
    else
      var s := seasons[|seasons| - 1];
      RunsBySeason(keys, seasons[..|seasons| - 1]) + RunsOf(s, SortedInts(EpisodesOf(keys, s)))
  }

  function KeyRuns(keys: set<EpisodeKey>): seq<Run> { RunsBySeason(keys, SortedInts(Seasons(keys))) }

  // ------------------------------------------------------------- first encoder

  /** The loop of `episode_range_labels` over one season, appending to `labels`. */
  method LabelSeason(labels: seq<Run>, season: int, episodes: seq<int>) returns (r: seq<Run>)
    ensures r == labels + RunsOf(season, episodes)
  {
    r := labels;
    var start: Option<int>, previous: Option<int> := None, None;
    assert episodes[..0] == [];
    for i := 0 to |episodes|
      invariant start.Some? <==> i > 0
      invariant start.Some? <==> previous.Some?
      invariant start.None? ==> r == labels
      invariant start.Some? ==> r + [Run(season, start.value, previous.value)] == labels + RunsOf(season, episodes[..i])
    {
      assert episodes[..i + 1][..i] == episodes[..i];
      ghost var done := RunsOf(season, episodes[..i]);
      var episode := episodes[i];
      if start.None? {
        start, previous := Some(episode), Some(episode);
        continue;
      }
      SplitLast(r, Run(season, start.value, previous.value), labels, done);
      if episode == previous.value + 1 {
        previous := Some(episode);
        continue;
      }
      r := r + [Run(season, start.value, previous.value)];
      start, previous := Some(episode), Some(episode);
    }
    assert episodes[..|episodes|] == episodes;
    if start.Some? {
      r := r + [Run(season, start.value, previous.value)];
    }
  }

  lemma SplitLast<T>(r: seq<T>, last: T, labels: seq<T>, done: seq<T>)
    requires done != [] && r + [last] == labels + done
    ensures done[|done| - 1] == last && r == labels + done[..|done| - 1]
  {
    assert (r + [last])[|r|] == (labels + done)[|labels| + |done| - 1];
    assert (r + [last])[..|r|] == r;
    assert (labels + done)[..|labels| + |done| - 1] == labels + done[..|done| - 1];
  }

  /** `grouped`: a dictionary in insertion order. */
  ghost predicate Grouped(order: seq<int>, groups: map<int, seq<int>>, seen: seq<EpisodeKey>) {
    && Ascending(order) && (forall s :: s in order <==> s in groups)
    && (forall s :: s in groups ==> Ascending(groups[s]) && groups[s] != [])
    && (forall s, e :: s in groups && e in groups[s] ==> (s, e) in seen)
    && (forall k :: k in seen ==> k.0 in groups && k.1 in groups[k.0])
  }

  /** `episode_range_labels`. */
  method EpisodeRangeLabels(keys: set<EpisodeKey>) returns (labels: seq<Run>)
    ensures labels == KeyRuns(keys)
  {
    hide Ascending, SortedInts, Seasons, EpisodesOf, RunsOf;
    var order, groups := GroupBySeason(keys);
    labels := [];
    assert order[..0] == [];
    for i := 0 to |order|
      invariant labels == RunsBySeason(keys, order[..i])
    {
      assert order[..i + 1][..i] == order[..i];
      labels := LabelSeason(labels, order[i], groups[order[i]]);
    }
    assert order[..|order|] == order;
  }

  method GroupBySeason(keys: set<EpisodeKey>) returns (order: seq<int>, groups: map<int, seq<int>>)
    ensures order == SortedInts(Seasons(keys))
    ensures forall s :: s in order ==> s in groups && groups[s] == SortedInts(EpisodesOf(keys, s))
  {
    hide Grouped, Ascending, AscendingKeys, SortedInts, Seasons, EpisodesOf, SortedKeys, KeyLess;
    var sorted := SortedKeys(keys);
    order, groups := [], map[];
    GroupedStart();
    for i := 0 to |sorted|
      invariant Grouped(order, groups, sorted[..i])
    {
      var (season, episode) := sorted[i];
      BelowNext(sorted, i);
      GroupNext(order, groups, sorted[..i], sorted[i]);
      assert sorted[..i + 1] == sorted[..i] + [sorted[i]];
      if season !in groups {
        order := order + [season];
        assert groups[season := []][season := [episode]] == groups[season := [episode]] && [] + [episode] == [episode];
        groups := groups[season := []];
      }
      groups := groups[season := groups[season] + [episode]];
    }
    assert sorted[..|sorted|] == sorted;
    GroupsSorted(keys, sorted, order, groups);
  }

  lemma GroupedStart()
    ensures Grouped([], map[], [])
  {
  }

  lemma BelowNext(sorted: seq<EpisodeKey>, i: nat)
    requires AscendingKeys(sorted) && i < |sorted|
    ensures forall j :: j in sorted[..i] ==> KeyLess(j, sorted[i])
  {
  }

  lemma GroupNext(order: seq<int>, groups: map<int, seq<int>>, seen: seq<EpisodeKey>, k: EpisodeKey)
    requires Grouped(order, groups, seen) && forall j :: j in seen ==> KeyLess(j, k)
    ensures k.0 in groups ==> Grouped(order, groups[k.0 := groups[k.0] + [k.1]], seen + [k])
    ensures k.0 !in groups ==> Grouped(order + [k.0], groups[k.0 := [k.1]], seen + [k])
  {
    forall s | s in groups ensures s <= k.0 {
      assert groups[s][0] in groups[s];
      assert (s, groups[s][0]) in seen;
    }
    if k.0 in groups {
      forall e | e in groups[k.0] ensures e < k.1 { assert (k.0, e) in seen; }
      AscendingPush(groups[k.0], k.1);
    } else {
      AscendingPush(order, k.0);
    }
  }

  lemma AscendingPush(a: seq<int>, x: int)
    requires Ascending(a) && forall y :: y in a ==> y < x
    ensures Ascending(a + [x])
  {
    forall i | 0 <= i < |a| ensures a[i] < x { assert a[i] in a; }
  }

  /** The groups are the sorted episodes of the sorted seasons. */
  lemma GroupsSorted(keys: set<EpisodeKey>, sorted: seq<EpisodeKey>, order: seq<int>, groups: map<int, seq<int>>)
    requires Grouped(order, groups, sorted) && forall k :: k in sorted <==> k in keys
    ensures order == SortedInts(Seasons(keys))
    ensures forall s :: s in order ==> s in groups && groups[s] == SortedInts(EpisodesOf(keys, s))
  {
    forall s | s in groups ensures s in Seasons(keys) && groups[s] == SortedInts(EpisodesOf(keys, s)) {
      assert groups[s][0] in groups[s];
      assert (s, groups[s][0]) in keys;
      forall e ensures e in groups[s] <==> e in EpisodesOf(keys, s) {
        assert e in groups[s] <==> (s, e) in sorted;
        assert e in EpisodesOf(keys, s) <==> (s, e) in keys;
      }
      AscendingUnique(groups[s], SortedInts(EpisodesOf(keys, s)));
    }
    forall s | s in Seasons(keys) ensures s in order {
      var k :| k in keys && k.0 == s;
      assert (s, k.1) in sorted;
    }
    AscendingUnique(order, SortedInts(Seasons(keys)));
  }

  // ------------------------------------------------------------ second encoder

  /** `_episode_range_summary`. */
  method EpisodeRangeSummary(keys: set<EpisodeKey>) returns (ranges: seq<Run>)
    ensures ranges == KeyRuns(keys)
  {
    ranges := [];
    if keys == {} {
      NoRuns();
      return;
    }
    var seasons := SortedInts(Seasons(keys));
    hide SortedInts, RunsOf, Ascending, Seasons, EpisodesOf;
    assert seasons[..0] == [];
    for i := 0 to |seasons|
      invariant ranges == RunsBySeason(keys, seasons[..i])
    {
      assert seasons[..i + 1][..i] == seasons[..i];
      var season := seasons[i];
      assert season in seasons;
      var episodes := SortedInts(EpisodesOf(keys, season));
      SeasonNotEmpty(keys, season);
      var part := SummarizeSeason(season, episodes);
      ranges := ranges + part;
    }
    assert seasons[..|seasons|] == seasons;
  }

  lemma NoRuns()
    ensures KeyRuns({}) == []
  {
    assert Seasons({}) == {};
  }

  lemma SeasonNotEmpty(keys: set<EpisodeKey>, season: int)
    requires season in Seasons(keys)
    ensures SortedInts(EpisodesOf(keys, season)) != []
  {
    var k :| k in keys && k.0 == season;
    assert k.1 in EpisodesOf(keys, season);
  }

  method SummarizeSeason(season: int, episodes: seq<int>) returns (r: seq<Run>)
    requires episodes != []
    ensures r == RunsOf(season, episodes)
  {
    r := [];
    var start, previous := episodes[0], episodes[0];
    assert episodes[..1][..0] == [];
    for i := 1 to |episodes|
      invariant r + [Run(season, start, previous)] == RunsOf(season, episodes[..i])
    {
      assert episodes[..i + 1][..i] == episodes[..i];
      var episode := episodes[i];
      if episode == previous + 1 {
        previous := episode;
        continue;
      }
      r := r + [Run(season, start, previous)];
      start, previous := episode, episode;
    }
    assert episodes[..|episodes|] == episodes;
    r := r + [Run(season, start, previous)];
  }

  // ------------------------------------------------------- what the runs are

  predicate Before(a: Run, b: Run) { a.season < b.season || (a.season == b.season && a.hi + 1 < b.lo) }

  /** Ascending, disjoint and maximal: neighbouring runs of a season leave a gap. */
  predicate OrderedRuns(runs: seq<Run>) {
    && (forall i :: 0 <= i < |runs| ==> runs[i].lo <= runs[i].hi)
    && (forall i, j :: 0 <= i < j < |runs| ==> Before(runs[i], runs[j]))
  }

  predicate InRun(r: Run, k: EpisodeKey) { r.season == k.0 && r.lo <= k.1 <= r.hi }

  predicate InRuns(runs: seq<Run>, k: EpisodeKey) { exists i :: 0 <= i < |runs| && InRun(runs[i], k) }

  /** An independent account of a run-length encoding. */
  ghost predicate IsRuns(runs: seq<Run>, keys: set<EpisodeKey>) {
    OrderedRuns(runs) && forall k :: InRuns(runs, k) <==> k in keys
  }

  /** Runs of one ascending listing: ordered, of that season, covering exactly its episodes. */
  ghost predicate RunsCover(runs: seq<Run>, season: int, a: seq<int>) {
    && OrderedRuns(runs) && (forall i :: 0 <= i < |runs| ==> runs[i].season == season)
    && (forall k: EpisodeKey :: InRuns(runs, k) <==> k.0 == season && k.1 in a)
  }

  lemma InRunsPush(runs: seq<Run>, r: Run, k: EpisodeKey)
    ensures InRuns(runs + [r], k) <==> InRuns(runs, k) || InRun(r, k)
  {
    assert (runs + [r])[|runs|] == r;
    forall i | 0 <= i < |runs| ensures (runs + [r])[i] == runs[i] {}
  }

  lemma InRunsConcat(a: seq<Run>, b: seq<Run>, k: EpisodeKey)
    ensures InRuns(a + b, k) <==> InRuns(a, k) || InRuns(b, k)
  {
    if i :| 0 <= i < |a| && InRun(a[i], k) { assert (a + b)[i] == a[i]; }
    if i :| 0 <= i < |b| && InRun(b[i], k) { assert (a + b)[|a| + i] == b[i]; }
  }

  lemma {:induction false} RunsOfCover(season: int, a: seq<int>)
    requires Ascending(a)
    ensures RunsCover(RunsOf(season, a), season, a)
    decreases |a|
  {
    if a != [] {
      var n := |a| - 1;
      RunsOfCover(season, a[..n]);
      var init := RunsOf(season, a[..n]);
      assert a == a[..n] + [a[n]];
      if init != [] && init[|init| - 1].hi + 1 == a[n] {
        GrowLast(init, season, a[..n], a[n]);
      } else {
        assert n > 0 ==> init[|init| - 1].hi == a[n - 1] < a[n];
        PushRun(init, season, a[..n], a[n]);
      }
    }
  }

  lemma GrowLast(runs: seq<Run>, season: int, a: seq<int>, e: int)
    requires RunsCover(runs, season, a) && runs != [] && runs[|runs| - 1].hi + 1 == e
    ensures RunsCover(runs[|runs| - 1 := runs[|runs| - 1].(hi := e)], season, a + [e])
  {
    var n := |runs| - 1;
    var next := runs[n := runs[n].(hi := e)];
    forall k: EpisodeKey ensures InRuns(next, k) <==> k.0 == season && k.1 in a + [e] {
      assert runs == runs[..n] + [runs[n]] && next == runs[..n] + [next[n]];
      InRunsPush(runs[..n], runs[n], k);
      InRunsPush(runs[..n], next[n], k);
      assert k.1 in a + [e] <==> k.1 in a || k.1 == e;
    }
    forall i, j | 0 <= i < j < |next| ensures Before(next[i], next[j]) { assert Before(runs[i], runs[j]); }
  }

  lemma PushRun(runs: seq<Run>, season: int, a: seq<int>, e: int)
    requires RunsCover(runs, season, a) && (runs != [] ==> runs[|runs| - 1].hi + 1 < e)
    ensures RunsCover(runs + [Run(season, e, e)], season, a + [e])
  {
    var n := |runs| - 1;
    var next := runs + [Run(season, e, e)];
    forall k: EpisodeKey ensures InRuns(next, k) <==> k.0 == season && k.1 in a + [e] {
      InRunsPush(runs, Run(season, e, e), k);
      assert k.1 in a + [e] <==> k.1 in a || k.1 == e;
    }
    forall i | 0 <= i < |runs| ensures runs[i].hi + 1 < e { assert i < n ==> Before(runs[i], runs[n]); }
  }

  lemma {:induction false} RunsBySeasonCover(keys: set<EpisodeKey>, seasons: seq<int>)
    requires Ascending(seasons)
    ensures OrderedRuns(RunsBySeason(keys, seasons))
    ensures forall k :: InRuns(RunsBySeason(keys, seasons), k) <==> k in keys && k.0 in seasons
    decreases |seasons|
  {
    if seasons != [] {
      hide RunsOf, SortedInts, InRuns, OrderedRuns;
      var n := |seasons| - 1;
      var s := seasons[n];
      var episodes := SortedInts(EpisodesOf(keys, s));
      RunsBySeasonCover(keys, seasons[..n]);
      RunsOfCover(s, episodes);
      assert seasons == seasons[..n] + [s];
      AppendSeason(keys, seasons[..n], s, RunsBySeason(keys, seasons[..n]), RunsOf(s, episodes), episodes);
    }
  }

  lemma AppendSeason(keys: set<EpisodeKey>, init: seq<int>, s: int, a: seq<Run>, b: seq<Run>, episodes: seq<int>)
    requires forall x :: x in init ==> x < s
    requires forall e :: e in episodes <==> (s, e) in keys
    requires OrderedRuns(a) && forall k :: InRuns(a, k) <==> k in keys && k.0 in init
    requires RunsCover(b, s, episodes)
    ensures OrderedRuns(a + b) && forall k :: InRuns(a + b, k) <==> k in keys && k.0 in init + [s]
  {
    forall i | 0 <= i < |a| ensures a[i].season < s { RunStarts(a, i); }
    hide InRuns;
    forall k: EpisodeKey ensures InRuns(a + b, k) <==> k in keys && k.0 in init + [s] {
      InRunsConcat(a, b, k);
      var e := k.1;
      assert e in episodes <==> (s, e) in keys;
      assert k.0 == s ==> k == (s, e);
    }
  }

  /** Both encoders' runs are ascending, disjoint, maximal, and cover exactly the keys. */
  lemma KeyRunsCover(keys: set<EpisodeKey>)
    ensures IsRuns(KeyRuns(keys), keys)
  {
    RunsBySeasonCover(keys, SortedInts(Seasons(keys)));
    forall k | k in keys ensures k.0 in SortedInts(Seasons(keys)) { assert k.0 in Seasons(keys); }
  }

  /** There is one run-length encoding of a key set. */
  lemma RunsUnique(runs: seq<Run>, keys: set<EpisodeKey>)
    ensures IsRuns(runs, keys) <==> runs == KeyRuns(keys)
  {
    hide KeyRuns, InRuns;
    KeyRunsCover(keys);
    if IsRuns(runs, keys) {
      SameRuns(runs, KeyRuns(keys));
    }
  }

  lemma {:induction false} SameRuns(a: seq<Run>, b: seq<Run>)
    requires OrderedRuns(a) && OrderedRuns(b) && forall k :: InRuns(a, k) <==> InRuns(b, k)
    ensures a == b
    decreases |a|
  {
    if a != [] { RunStarts(a, 0); }
    if b != [] { RunStarts(b, 0); }
    if a != [] {
      hide InRuns;
      StartsLater(a, b);
      StartsLater(b, a);
      EndsLater(a, b);
      EndsLater(b, a);
      forall k ensures InRuns(a[1..], k) <==> InRuns(b[1..], k) {
        InTail(a, k);
        InTail(b, k);
      }
      SameRuns(a[1..], b[1..]);
    }
  }

  lemma RunStarts(a: seq<Run>, i: nat)
    requires OrderedRuns(a) && i < |a|
    ensures InRuns(a, (a[i].season, a[i].lo))
  {
    assert InRun(a[i], (a[i].season, a[i].lo));
  }

  lemma OneRun(a: seq<Run>, i: nat, j: nat, k: EpisodeKey)
    requires OrderedRuns(a) && i < |a| && j < |a| && InRun(a[i], k) && InRun(a[j], k)
    ensures i == j
  {
  }

  lemma GapFollows(a: seq<Run>)
    requires OrderedRuns(a) && a != []
    ensures !InRuns(a, (a[0].season, a[0].hi + 1))
  {
    forall j | 1 <= j < |a| ensures !InRun(a[j], (a[0].season, a[0].hi + 1)) { assert Before(a[0], a[j]); }
  }

  lemma InTail(a: seq<Run>, k: EpisodeKey)
    requires OrderedRuns(a) && a != []
    ensures InRuns(a[1..], k) <==> InRuns(a, k) && !InRun(a[0], k)
  {
    if i :| 0 <= i < |a| && InRun(a[i], k) {
      if i > 0 { assert a[1..][i - 1] == a[i] && Before(a[0], a[i]); }
    }
    if i :| 0 <= i < |a[1..]| && InRun(a[1..][i], k) { assert a[i + 1] == a[1..][i] && Before(a[0], a[i + 1]); }
  }

  lemma StartsLater(a: seq<Run>, b: seq<Run>)
    requires OrderedRuns(a) && OrderedRuns(b) && a != [] && b != [] && forall k :: InRuns(a, k) ==> InRuns(b, k)
    ensures b[0].season < a[0].season || (b[0].season == a[0].season && b[0].lo <= a[0].lo)
  {
    var k := (a[0].season, a[0].lo);
    assert InRun(a[0], k);
    assert InRuns(a, k);
    var j :| 0 <= j < |b| && InRun(b[j], k);
    assert j > 0 ==> Before(b[0], b[j]);
  }

  lemma EndsLater(a: seq<Run>, b: seq<Run>)
    requires OrderedRuns(a) && OrderedRuns(b) && a != [] && b != [] && forall k :: InRuns(a, k) ==> InRuns(b, k)
    requires a[0].season == b[0].season && a[0].lo == b[0].lo
    ensures a[0].hi <= b[0].hi
  {
    var k := (a[0].season, b[0].hi + 1);
    GapFollows(b);
    if InRun(a[0], k) { assert InRuns(a, k); }
  }

  // ------------------------------------------------------------- and back again

  function ExpandRuns(runs: seq<Run>): set<EpisodeKey> {
    set i, k | 0 <= i < |runs| && k in ExpandRange(runs[i].season, runs[i].lo, runs[i].hi) :: k
  }

  /** `_expand_episode_range` gives no range longer than this. */
  predicate Expandable(r: Run) { r.hi - r.lo <= 120 }

  lemma ExpandRun(r: Run)
    requires r.lo <= r.hi && r.season != 0 && r.lo >= 1
    ensures forall k :: k in ExpandRange(r.season, r.lo, r.hi) <==> InRun(r, k) && Expandable(r)
  {
    forall k | InRun(r, k) && Expandable(r) ensures k in ExpandRange(r.season, r.lo, r.hi) {
      var e := k.1;
      var last := if r.hi == 0 then r.lo else r.hi;
      assert r.lo <= e <= last && k == (OrOne(r.season), e);
    }
  }

  /**
   Expanding the runs of a set gives the set back exactly when no key has season 0 or an episode
   below 1, and no run is longer than 121 episodes.
   */
  lemma ExpandExactly(keys: set<EpisodeKey>)
    ensures ExpandRuns(KeyRuns(keys)) == keys
            <==> (forall k :: k in keys ==> k.0 != 0 && k.1 >= 1) && (forall r :: r in KeyRuns(keys) ==> Expandable(r))
  {
    var runs := KeyRuns(keys);
    KeyRunsCover(keys);
    hide KeyRuns;
    if ExpandRuns(runs) == keys {
      forall k | k in keys ensures k.0 != 0 && k.1 >= 1 { assert k in ExpandRuns(runs); }
      forall r | r in runs ensures Expandable(r) { RunExpandable(runs, keys, r); }
    }
    if (forall k :: k in keys ==> k.0 != 0 && k.1 >= 1) && (forall r :: r in runs ==> Expandable(r)) {
      forall i | 0 <= i < |runs|
        ensures forall k :: k in ExpandRange(runs[i].season, runs[i].lo, runs[i].hi) <==> InRun(runs[i], k)
      {
        RunStarts(runs, i);
        ExpandRun(runs[i]);
      }
      forall k ensures k in ExpandRuns(runs) <==> k in keys {
        assert k in keys <==> InRuns(runs, k);
      }
    }
  }

  /** What a series misses is lost by its runs only where one is longer than 121 episodes. */
  lemma MissingExpands(s: Subscription)
    ensures ExpandRuns(KeyRuns(Missing(s))) == Missing(s) <==> forall r :: r in KeyRuns(Missing(s)) ==> Expandable(r)
  {
    SeasonKeysPositive(s.seasons);
    ExpandExactly(Missing(s));
    hide KeyRuns, ExpandRuns;
  }

  lemma RunExpandable(runs: seq<Run>, keys: set<EpisodeKey>, r: Run)
    requires IsRuns(runs, keys) && ExpandRuns(runs) == keys && r in runs
    ensures Expandable(r)
  {
    var i :| 0 <= i < |runs| && runs[i] == r;
    var k := (r.season, r.lo);
    RunStarts(runs, i);
    assert k in ExpandRuns(runs);
    var j :| 0 <= j < |runs| && k in ExpandRange(runs[j].season, runs[j].lo, runs[j].hi);
    RunStarts(runs, j);
    assert (runs[j].season, runs[j].lo) in ExpandRuns(runs);
    ExpandRun(runs[j]);
    OneRun(runs, i, j, k);
  }
}
