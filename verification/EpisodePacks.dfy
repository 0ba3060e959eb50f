/** Episodes a text stands for when it names seasons, whole packs or episode counts. */
module EpisodePacks {
  import opened PyText
  import opened IntSets
  import opened EpisodeKeys
  import EpisodeRuns

  /** What the text patterns found. */
  datatype TextFacts = TextFacts(
    explicitEpisodes: set<EpisodeKey>,
    seasons: set<int>,
    counts: set<int>,
    ranges: seq<(int, int)>,
    seasonPackWord: bool,
    fullSeriesWord: bool)

  /** Bounds the patterns guarantee. */
  predicate Parsed(f: TextFacts) {
    && (forall s :: s in f.seasons ==> 0 < s < 100)
    && (forall c :: c in f.counts ==> 0 < c <= 200)
    && (forall k :: k in f.explicitEpisodes ==> k.0 >= 1 && k.1 >= 1)
  }

  // ------------------------------------------------------------ keys by season

  function SeasonOf(keys: set<EpisodeKey>, season: int): set<EpisodeKey> { set k | k in keys && k.0 == season }

  function BySeason(keys: set<EpisodeKey>): map<int, set<EpisodeKey>> {
    map s | s in EpisodeRuns.Seasons(keys) :: SeasonOf(keys, s)
  }

  /** `_episode_keys_by_season`; a Python set is visited in any order. */
  method KeysBySeason(keys: set<EpisodeKey>) returns (grouped: map<int, set<EpisodeKey>>)
    ensures grouped == BySeason(keys)
  {
    grouped := map[];
    var rest := keys;
    while rest != {}
      invariant rest <= keys && grouped == BySeason(keys - rest)
    {
      var k := AnyOf(rest);
      GroupOneMore(keys - rest, k);
      assert keys - (rest - {k}) == (keys - rest) + {k};
      if k.0 !in grouped {
        grouped := grouped[k.0 := {}];
      }
      grouped := grouped[k.0 := grouped[k.0] + {k}];
      rest := rest - {k};
    }
    assert keys - rest == keys;
  }

  method AnyOf<T>(s: set<T>) returns (a: T)
    requires s != {}
    ensures a in s
  {
    a :| a in s;
  }

  lemma GroupOneMore(seen: set<EpisodeKey>, k: EpisodeKey)
    ensures var g := BySeason(seen);
            BySeason(seen + {k}) == g[k.0 := (if k.0 in g then g[k.0] else {}) + {k}]
  {
    var g, next := BySeason(seen), BySeason(seen + {k});
    SeasonsOneMore(seen, k);
    forall s | s in next ensures next[s] == if s == k.0 then (if k.0 in g then g[k.0] else {}) + {k} else g[s] {
      if s !in g { EmptySeason(seen, s); }
      assert SeasonOf(seen + {k}, s) == SeasonOf(seen, s) + (if s == k.0 then {k} else {});
    }
  }

  lemma SeasonsOneMore(seen: set<EpisodeKey>, k: EpisodeKey)
    ensures EpisodeRuns.Seasons(seen + {k}) == EpisodeRuns.Seasons(seen) + {k.0}
  {
    forall s | s in EpisodeRuns.Seasons(seen) ensures s in EpisodeRuns.Seasons(seen + {k}) {
      var j :| j in seen && j.0 == s;
      assert j in seen + {k};
    }
    assert k in seen + {k};
  }

  lemma EmptySeason(keys: set<EpisodeKey>, s: int)
    ensures s !in EpisodeRuns.Seasons(keys) <==> SeasonOf(keys, s) == {}
  {
    if SeasonOf(keys, s) != {} {
      var k := Member(SeasonOf(keys, s));
      assert k in keys && k.0 == s;
    }
    if s in EpisodeRuns.Seasons(keys) {
      var k :| k in keys && k.0 == s;
      assert k in SeasonOf(keys, s);
    }
  }

  // ---------------------------------------------------------- inference by count

  function SeasonsOfSize(expected: map<int, set<EpisodeKey>>, count: int): set<int> {
    set s | s in expected && |expected[s]| == count
  }

  function WithMissing(seasons: set<int>, missing: map<int, set<EpisodeKey>>): set<int> {
    set s | s in seasons && s in missing && missing[s] != {}
  }

  /** `_season_keys_for_count`. */
  function ForCount(expected: map<int, set<EpisodeKey>>, missing: map<int, set<EpisodeKey>>,
                    count: int): set<EpisodeKey> {
    var sized := SeasonsOfSize(expected, count);
    var wanted := WithMissing(sized, missing);
    if |wanted| == 1 then expected[Lowest(wanted)]
    else if |sized| == 1 then expected[Lowest(sized)]
    else {}
  }

  /** The first count, from the largest, that settles on a season. */
  function FirstFor(expected: map<int, set<EpisodeKey>>, missing: map<int, set<EpisodeKey>>,
                    counts: seq<int>): set<EpisodeKey> {
    if counts == [] then {}
    else
      var found := ForCount(expected, missing, counts[|counts| - 1]);
      if found != {} then found else FirstFor(expected, missing, counts[..|counts| - 1])
  }

  function CountKeys(expected: set<EpisodeKey>, missing: set<EpisodeKey>, counts: set<int>): set<EpisodeKey> {
    if counts == {} || expected == {} then {}
    else if |expected| in counts then expected
    else
      var found := FirstFor(BySeason(expected), BySeason(missing), EpisodeRuns.SortedInts(counts));
      if found != {} then found
      else if |EpisodeRuns.Seasons(expected)| == 1 then expected
      else {}
  }

  /** `_season_keys_for_counts`. */
  method SeasonKeysForCounts(s: Subscription, counts: set<int>, missing: set<EpisodeKey>) returns (r: set<EpisodeKey>)
    ensures r == CountKeys(Expected(s), missing, counts)
  {
    hide ForCount, Expected;
    if counts == {} {
      return {};
    }
    var expected := AllTmdbEpisodeKeys(s);
    var bySeason := KeysBySeason(expected);
    GroupsCover(expected);
    if bySeason == map[] {
      return {};
    }
    var everything, total := Totals(bySeason, expected);
    if total in counts {
      return everything;
    }
    var missingBySeason := KeysBySeason(missing);
    var listed := EpisodeRuns.SortedInts(counts);
    assert listed[..|listed|] == listed;
    for i := |listed| downto 0
      invariant FirstFor(bySeason, missingBySeason, listed) == FirstFor(bySeason, missingBySeason, listed[..i])
    {
      assert listed[..i + 1][..i] == listed[..i];
      r := ForCount(bySeason, missingBySeason, listed[i]);
      if r != {} {
        return;
      }
    }
    if |bySeason| == 1 {
      var only := AnyOf(bySeason.Keys);
      OnlySeason(expected, only);
      return bySeason[only];
    }
    return {};
  }

  /** The union of the seasons' keys and the sum of their sizes. */
  method Totals(bySeason: map<int, set<EpisodeKey>>, keys: set<EpisodeKey>)
    returns (everything: set<EpisodeKey>, total: nat)
    requires bySeason == BySeason(keys)
    ensures everything == keys && total == |keys|
  {
    everything, total := {}, 0;
    forall k | k in keys ensures k.0 in bySeason { SeasonIn(keys, k); }
    var rest := bySeason.Keys;
    while rest != {}
      invariant rest <= bySeason.Keys
      invariant forall k :: k in everything <==> k in keys && k.0 !in rest
      invariant total == |everything|
    {
      var s := AnyOf(rest);
      assert everything !! SeasonOf(keys, s);
      everything, total := everything + bySeason[s], total + |bySeason[s]|;
      rest := rest - {s};
    }
    assert everything == keys;
  }

  lemma SeasonIn(keys: set<EpisodeKey>, k: EpisodeKey)
    requires k in keys
    ensures k.0 in EpisodeRuns.Seasons(keys)
  {
    assert k in SeasonOf(keys, k.0);
    EmptySeason(keys, k.0);
  }

  lemma GroupsCover(keys: set<EpisodeKey>)
    ensures BySeason(keys) == map[] <==> keys == {}
    ensures |BySeason(keys)| == |EpisodeRuns.Seasons(keys)|
  {
    if keys != {} {
      var k := Member(keys);
      SeasonIn(keys, k);
    }
    assert BySeason(keys).Keys == EpisodeRuns.Seasons(keys);
  }

  lemma OnlySeason(keys: set<EpisodeKey>, only: int)
    requires |EpisodeRuns.Seasons(keys)| == 1 && only in EpisodeRuns.Seasons(keys)
    ensures SeasonOf(keys, only) == keys
  {
    forall k | k in keys ensures k.0 == only {
      Single(EpisodeRuns.Seasons(keys), only, k.0);
    }
  }

  lemma Single<T>(s: set<T>, a: T, b: T)
    requires |s| == 1 && a in s && b in s
    ensures a == b
  {
    assert |s - {a}| == 0;
  }

  /** The only season of its size, or the only one of its size that still misses episodes. */
  ghost predicate SettledBy(expected: set<EpisodeKey>, missing: set<EpisodeKey>, season: int, count: int) {
    var sized := SeasonsOfSize(BySeason(expected), count);
    sized == {season} || WithMissing(sized, BySeason(missing)) == {season}
  }

  /**
   What a count can infer: nothing, everything, or one whole season of a mentioned size that
   stands alone among the seasons of its size.
   */
  lemma CountInference(expected: set<EpisodeKey>, missing: set<EpisodeKey>, counts: set<int>)
    ensures var r := CountKeys(expected, missing, counts);
            r == {} || r == expected
            || exists s :: s in EpisodeRuns.Seasons(expected) && r == SeasonOf(expected, s)
                           && |r| in counts && SettledBy(expected, missing, s, |r|)
  {
    hide BySeason;
    var listed := EpisodeRuns.SortedInts(counts);
    var r := FirstFor(BySeason(expected), BySeason(missing), listed);
    if r != {} {
      var s := FirstForSeason(expected, missing, listed);
    }
  }

  lemma {:induction false} FirstForSeason(expected: set<EpisodeKey>, missing: set<EpisodeKey>, counts: seq<int>)
    returns (s: int)
    requires FirstFor(BySeason(expected), BySeason(missing), counts) != {}
    ensures s in EpisodeRuns.Seasons(expected)
    ensures FirstFor(BySeason(expected), BySeason(missing), counts) == SeasonOf(expected, s)
    ensures |SeasonOf(expected, s)| in counts && SettledBy(expected, missing, s, |SeasonOf(expected, s)|)
    decreases |counts|
  {
    var count := counts[|counts| - 1];
    if ForCount(BySeason(expected), BySeason(missing), count) != {} {
      s := ForCountSeason(expected, missing, count);
    } else {
      s := FirstForSeason(expected, missing, counts[..|counts| - 1]);
    }
  }

  lemma ForCountSeason(expected: set<EpisodeKey>, missing: set<EpisodeKey>, count: int) returns (s: int)
    requires ForCount(BySeason(expected), BySeason(missing), count) != {}
    ensures s in EpisodeRuns.Seasons(expected)
    ensures ForCount(BySeason(expected), BySeason(missing), count) == SeasonOf(expected, s)
    ensures |SeasonOf(expected, s)| == count && SettledBy(expected, missing, s, count)
  {
    var sized := SeasonsOfSize(BySeason(expected), count);
    var wanted := WithMissing(sized, BySeason(missing));
    var chosen := if |wanted| == 1 then wanted else sized;
    s := Lowest(chosen);
    forall t | t in chosen ensures t == s { Single(chosen, s, t); }
    assert chosen == {s};
  }

  /** A count settles on a season of that size: no other season of the size misses episodes, and it
      misses some itself or is the only one of its size. */
  ghost predicate SettlesOn(expected: set<EpisodeKey>, missing: set<EpisodeKey>, season: int, count: int) {
    && count > 0 && |SeasonOf(expected, season)| == count
    && (forall k :: k in missing && k.0 != season ==> |SeasonOf(expected, k.0)| != count)
    && ((exists k :: k in missing && k.0 == season) ||
        (forall k :: k in expected && k.0 != season ==> |SeasonOf(expected, k.0)| != count))
  }

  lemma SizedIs(expected: set<EpisodeKey>, count: int, s: int)
    requires count > 0
    ensures s in SeasonsOfSize(BySeason(expected), count) <==> |SeasonOf(expected, s)| == count
  {
    EmptySeason(expected, s);
  }

  lemma MissingIs(missing: set<EpisodeKey>, s: int)
    ensures s in BySeason(missing) && BySeason(missing)[s] != {} <==> exists k :: k in missing && k.0 == s
  {
    EmptySeason(missing, s);
    if k :| k in missing && k.0 == s { assert k in SeasonOf(missing, s); }
  }

  lemma ForCountExactly(expected: set<EpisodeKey>, missing: set<EpisodeKey>, season: int, count: int)
    requires SettlesOn(expected, missing, season, count)
    ensures ForCount(BySeason(expected), BySeason(missing), count) == SeasonOf(expected, season)
  {
    var sized := SeasonsOfSize(BySeason(expected), count);
    var wanted := WithMissing(sized, BySeason(missing));
    forall t ensures t in sized <==> |SeasonOf(expected, t)| == count { SizedIs(expected, count, t); }
    forall t ensures t in wanted <==> t in sized && exists k :: k in missing && k.0 == t { MissingIs(missing, t); }
    hide SeasonsOfSize, WithMissing;
    assert forall t :: t in wanted ==> t == season;
    if exists k :: k in missing && k.0 == season {
      assert wanted == {season};
    } else {
      assert wanted == {};
      forall t | t in sized ensures t == season {
        var k := Member(SeasonOf(expected, t));
        assert k in expected && k.0 == t;
      }
      assert sized == {season};
    }
  }

  lemma ForCountSettles(expected: set<EpisodeKey>, missing: set<EpisodeKey>, count: int) returns (s: int)
    requires count > 0 && ForCount(BySeason(expected), BySeason(missing), count) != {}
    ensures SettlesOn(expected, missing, s, count)
  {
    s := ForCountSeason(expected, missing, count);
    var sized := SeasonsOfSize(BySeason(expected), count);
    var wanted := WithMissing(sized, BySeason(missing));
    forall t ensures t in sized <==> |SeasonOf(expected, t)| == count { SizedIs(expected, count, t); }
    forall t ensures t in wanted <==> t in sized && exists k :: k in missing && k.0 == t { MissingIs(missing, t); }
    hide SeasonsOfSize, WithMissing, ForCount;
  }

  lemma ForCountNothing(expected: set<EpisodeKey>, missing: set<EpisodeKey>, count: int)
    requires count > 0 && forall s :: !SettlesOn(expected, missing, s, count)
    ensures ForCount(BySeason(expected), BySeason(missing), count) == {}
  {
    hide SettlesOn, ForCount;
    if ForCount(BySeason(expected), BySeason(missing), count) != {} {
      var s := ForCountSettles(expected, missing, count);
    }
  }

  /** The largest mentioned count that settles on a season decides, unless all episodes are mentioned. */
  lemma LargestCountDecides(expected: set<EpisodeKey>, missing: set<EpisodeKey>, counts: set<int>, season: int,
                            count: int)
    requires (forall c :: c in counts ==> c > 0) && |expected| !in counts
    requires count in counts && SettlesOn(expected, missing, season, count)
    requires forall c, s :: c in counts && c > count ==> !SettlesOn(expected, missing, s, c)
    ensures CountKeys(expected, missing, counts) == SeasonOf(expected, season)
  {
    var listed := EpisodeRuns.SortedInts(counts);
    assert SeasonOf(expected, season) != {};
    hide BySeason, SettlesOn, SeasonOf;
    FirstForLargest(expected, missing, listed, season, count);
  }

  lemma {:induction false} FirstForLargest(expected: set<EpisodeKey>, missing: set<EpisodeKey>, counts: seq<int>,
                                           season: int, count: int)
    requires (forall c :: c in counts ==> c > 0) && count in counts && SettlesOn(expected, missing, season, count)
    requires forall i, j :: 0 <= i < j < |counts| ==> counts[i] < counts[j]
    requires forall c, s :: c in counts && c > count ==> !SettlesOn(expected, missing, s, c)
    ensures FirstFor(BySeason(expected), BySeason(missing), counts) == SeasonOf(expected, season)
    decreases |counts|
  {
    var n := |counts| - 1;
    if counts[n] == count {
      ForCountExactly(expected, missing, season, count);
      assert SeasonOf(expected, season) != {};
    } else {
      assert counts[n] in counts && counts[n] > count;
      ForCountNothing(expected, missing, counts[n]);
      hide BySeason, SettlesOn, SeasonOf, ForCount;
      assert forall c :: c in counts[..n] ==> c in counts;
      FirstForLargest(expected, missing, counts[..n], season, count);
    }
  }

  lemma {:induction false} FirstForNothing(expected: set<EpisodeKey>, missing: set<EpisodeKey>, counts: seq<int>)
    requires forall c :: c in counts ==> c > 0
    requires forall c, s :: c in counts ==> !SettlesOn(expected, missing, s, c)
    ensures FirstFor(BySeason(expected), BySeason(missing), counts) == {}
    decreases |counts|
  {
    hide BySeason, SettlesOn, SeasonOf, ForCount;
    if counts != [] {
      var n := |counts| - 1;
      assert counts[n] in counts && forall c :: c in counts[..n] ==> c in counts;
      ForCountNothing(expected, missing, counts[n]);
      FirstForNothing(expected, missing, counts[..n]);
    }
  }

  /** Where no count settles on a season, a count stands for everything, if all episodes are mentioned
      or there is one season only, and otherwise for nothing. */
  lemma UnsettledCounts(expected: set<EpisodeKey>, missing: set<EpisodeKey>, counts: set<int>)
    requires (forall c :: c in counts ==> c > 0) && counts != {} && expected != {}
    requires forall c, s :: c in counts ==> !SettlesOn(expected, missing, s, c)
    ensures CountKeys(expected, missing, counts)
            == if |expected| in counts || |EpisodeRuns.Seasons(expected)| == 1 then expected else {}
  {
    hide BySeason, SettlesOn, SeasonOf, FirstFor;
    FirstForNothing(expected, missing, EpisodeRuns.SortedInts(counts));
  }

  // ----------------------------------------------------------- inference by season

  function Highest(counts: set<int>): (m: int)
    requires counts != {}
    ensures m in counts && forall c :: c in counts ==> c <= m
  {
    var listed := EpisodeRuns.SortedInts(counts);
    assert forall c :: c in counts ==> c in listed;
    assert listed != [] by { var c := Member(counts); assert c in listed; }
    listed[|listed| - 1]
  }

  /** `_season_count_keys`. */
  function SeasonCountKeys(f: TextFacts, season: int, expected: set<EpisodeKey>): set<EpisodeKey> {
    if f.counts == {} || season !in BySeason(expected) then {}
    else
      var whole := BySeason(expected)[season];
      if |whole| in f.counts || f.seasonPackWord then whole else ExpandRange(season, 1, Highest(f.counts))
  }

  function RangeKeys(ranges: seq<(int, int)>, season: int): set<EpisodeKey> {
    set i, k | 0 <= i < |ranges| && k in ExpandRange(season, ranges[i].0, ranges[i].1) :: k
  }

  /** `_season_range_keys`. */
  method SeasonRangeKeys(ranges: seq<(int, int)>, season: int) returns (keys: set<EpisodeKey>)
    ensures keys == RangeKeys(ranges, season)
  {
    keys := {};
    for i := 0 to |ranges|
      invariant keys == RangeKeys(ranges[..i], season)
    {
      RangeKeysNext(ranges, season, i);
      keys := keys + ExpandRange(season, ranges[i].0, ranges[i].1);
    }
    assert ranges[..|ranges|] == ranges;
  }

  lemma RangeKeysNext(ranges: seq<(int, int)>, season: int, i: nat)
    requires i < |ranges|
    ensures RangeKeys(ranges[..i + 1], season)
            == RangeKeys(ranges[..i], season) + ExpandRange(season, ranges[i].0, ranges[i].1)
  {
    var a, b := ranges[..i], ranges[..i + 1];
    forall k
      ensures k in RangeKeys(b, season)
              <==> k in RangeKeys(a, season) || k in ExpandRange(season, ranges[i].0, ranges[i].1)
    {
      if k in RangeKeys(a, season) {
        var j :| 0 <= j < |a| && k in ExpandRange(season, a[j].0, a[j].1);
        assert b[j] == a[j];
      }
      if k in RangeKeys(b, season) {
        var j :| 0 <= j < |b| && k in ExpandRange(season, b[j].0, b[j].1);
        assert j < i ==> b[j] == a[j];
      }
      assert b[i] == ranges[i];
    }
  }

  function PackWordKeys(f: TextFacts, seasons: set<int>, expected: set<EpisodeKey>): set<EpisodeKey> {
    set k | k in expected && k.0 in seasons && f.seasonPackWord && f.explicitEpisodes == {}
  }

  function ContextKeys(f: TextFacts, expected: set<EpisodeKey>): set<EpisodeKey> {
    PackWordKeys(f, f.seasons, expected)
    + if |f.seasons| == 1
      then RangeKeys(f.ranges, Lowest(f.seasons)) + SeasonCountKeys(f, Lowest(f.seasons), expected)
      else {}
  }

  /** `_pack_keys_with_season_context`. */
  method PackKeysWithSeasonContext(s: Subscription, f: TextFacts) returns (inferred: set<EpisodeKey>)
    ensures inferred == ContextKeys(f, Expected(s))
  {
    hide PackWordKeys, RangeKeys, SeasonCountKeys;
    inferred := {};
    if f.seasons == {} {
      NoSeasonNamed(f, Expected(s));
      return;
    }
    var expected := AllTmdbEpisodeKeys(s);
    inferred := PackWordSeasons(f, expected);
    if |f.seasons| == 1 {
      var season := AnyOf(f.seasons);
      Single(f.seasons, season, Lowest(f.seasons));
      var ranged := SeasonRangeKeys(f.ranges, season);
      inferred := inferred + ranged + SeasonCountKeys(f, season, expected);
    }
  }

  lemma NoSeasonNamed(f: TextFacts, expected: set<EpisodeKey>)
    requires f.seasons == {}
    ensures ContextKeys(f, expected) == {}
  {
  }

  /** The loop over the named seasons, in any order. */
  method PackWordSeasons(f: TextFacts, expected: set<EpisodeKey>) returns (inferred: set<EpisodeKey>)
    ensures inferred == PackWordKeys(f, f.seasons, expected)
  {
    var bySeason := KeysBySeason(expected);
    inferred := {};
    var rest := f.seasons;
    while rest != {}
      invariant rest <= f.seasons && inferred == PackWordKeys(f, f.seasons - rest, expected)
    {
      var season := AnyOf(rest);
      EmptySeason(expected, season);
      assert f.seasons - (rest - {season}) == (f.seasons - rest) + {season};
      PackWordNext(f, f.seasons - rest, season, expected);
      if f.seasonPackWord && f.explicitEpisodes == {} && season in bySeason {
        inferred := inferred + bySeason[season];
      }
      rest := rest - {season};
    }
    assert f.seasons - rest == f.seasons;
  }

  lemma PackWordNext(f: TextFacts, done: set<int>, season: int, expected: set<EpisodeKey>)
    ensures PackWordKeys(f, done + {season}, expected)
         == PackWordKeys(f, done, expected)
          + (if f.seasonPackWord && f.explicitEpisodes == {} then SeasonOf(expected, season) else {})
  {
  }

  /** `_pack_episode_keys_from_text`. */
  function PackKeys(s: Subscription, f: TextFacts): set<EpisodeKey> {
    if Expected(s) == {} then {}
    else if f.seasons != {} then ContextKeys(f, Expected(s)) * Expected(s)
    else if f.explicitEpisodes != {} then {}
    else if f.fullSeriesWord then Expected(s)
    else CountKeys(Expected(s), Missing(s), f.counts) * Expected(s)
  }

  method PackEpisodeKeysFromText(s: Subscription, f: TextFacts) returns (r: set<EpisodeKey>)
    ensures r == PackKeys(s, f)
  {
    var expected := AllTmdbEpisodeKeys(s);
    if expected == {} {
      return {};
    }
    var inferred := PackKeysWithSeasonContext(s, f);
    if f.seasons != {} {
      return inferred * expected;
    }
    if f.explicitEpisodes != {} {
      return {};
    }
    if f.fullSeriesWord {
      return expected;
    }
    var counted := SeasonKeysForCounts(s, f.counts, Missing(s));
    return counted * expected;
  }

  /** Keys of season 1, the default, move to the season that the text names. */
  function Remapped(episodes: set<EpisodeKey>, season: int): set<EpisodeKey> {
    set k | k in episodes :: if k.0 == 1 then (season, k.1) else k
  }

  /** `episode_keys_from_text_for_subscription`; a falsy subscription is `None`. */
  function TextKeys(sub: Option<Subscription>, f: TextFacts): set<EpisodeKey> {
    if sub.None? then f.explicitEpisodes
    else
      (if |f.seasons| == 1 && Lowest(f.seasons) != 1
       then Remapped(f.explicitEpisodes, Lowest(f.seasons))
       else f.explicitEpisodes)
      + PackKeys(sub.value, f)
  }

  /** Pack inference yields expected keys only; the final cut matters for named seasons alone. */
  lemma PackWithinExpected(s: Subscription, f: TextFacts)
    ensures PackKeys(s, f) <= Expected(s)
    ensures CountKeys(Expected(s), Missing(s), f.counts) <= Expected(s)
  {
    CountInference(Expected(s), Missing(s), f.counts);
  }

  /** Keys inferred from one named season belong to it. */
  lemma OneSeasonPack(s: Subscription, f: TextFacts, season: int)
    requires Parsed(f) && f.seasons == {season}
    ensures forall k :: k in PackKeys(s, f) ==> k.0 == season
  {
    Single(f.seasons, season, Lowest(f.seasons));
    hide CountKeys;
    forall k | k in RangeKeys(f.ranges, season) ensures k.0 == season {}
    forall k | k in SeasonCountKeys(f, season, Expected(s)) ensures k.0 == season {}
  }

  /** A text naming one season other than 1 yields no key of season 1. */
  lemma OtherSeasonOnly(s: Subscription, f: TextFacts, season: int)
    requires Parsed(f) && f.seasons == {season} && season != 1
    ensures forall k :: k in TextKeys(Some(s), f) ==> k.0 != 1
  {
    OneSeasonPack(s, f, season);
    Single(f.seasons, season, Lowest(f.seasons));
    hide PackKeys;
    forall k | k in Remapped(f.explicitEpisodes, season) ensures k.0 != 1 {}
  }

  /** Named seasons with a pack word and no explicit episode stand for exactly their expected keys. */
  lemma WholeSeasons(s: Subscription, f: TextFacts)
    requires Parsed(f) && f.seasons != {} && f.seasonPackWord && f.explicitEpisodes == {}
    ensures forall k :: k in PackKeys(s, f) <==> k in Expected(s) && k.0 in f.seasons
  {
    hide CountKeys;
    if |f.seasons| == 1 {
      var season := Lowest(f.seasons);
      forall t | t in f.seasons ensures t == season { Single(f.seasons, season, t); }
      assert f.seasons == {season};
      OneSeasonPack(s, f, season);
    }
    assert PackWordKeys(f, f.seasons, Expected(s)) <= ContextKeys(f, Expected(s));
  }

  /** A count that fits no season is taken from episode 1 on, and lost when it is above 121. */
  lemma LongCountLost(f: TextFacts, season: int, expected: set<EpisodeKey>)
    requires Parsed(f) && season in EpisodeRuns.Seasons(expected) && season >= 1
    requires f.counts != {} && |SeasonOf(expected, season)| !in f.counts && !f.seasonPackWord
    ensures SeasonCountKeys(f, season, expected)
         == if Highest(f.counts) <= 121 then FirstEpisodes(season, Highest(f.counts)) else {}
  {
    var last := Highest(f.counts);
    forall k ensures k in ExpandRange(season, 1, last) <==> last <= 121 && k in FirstEpisodes(season, last) {
      if last <= 121 && k in FirstEpisodes(season, last) {
        var e := k.1;
        assert 1 <= e <= last && k == (OrOne(season), e);
      }
    }
  }

  /** A text that names one season and mentions its size, or any count beside a pack word, stands for the
      whole season. */
  lemma SeasonSizeMentioned(s: Subscription, f: TextFacts, season: int)
    requires f.seasons == {season} && season in EpisodeRuns.Seasons(Expected(s))
    requires f.counts != {} && (|SeasonOf(Expected(s), season)| in f.counts || f.seasonPackWord)
    ensures PackKeys(s, f) == SeasonOf(Expected(s), season)
  {
    var expected := Expected(s);
    Single(f.seasons, season, Lowest(f.seasons));
    assert SeasonCountKeys(f, season, expected) == SeasonOf(expected, season);
    PositiveSeason(s, season);
    assert forall k :: k in RangeKeys(f.ranges, season) ==> k.0 == season;
    assert forall k :: k in PackWordKeys(f, f.seasons, expected) ==> k.0 == season;
    assert expected != {};
    hide CountKeys, RangeKeys, SeasonCountKeys, PackWordKeys, Expected;
    forall k ensures k in PackKeys(s, f) <==> k in SeasonOf(expected, season) {}
  }

  lemma PositiveSeason(s: Subscription, season: int)
    requires season in EpisodeRuns.Seasons(Expected(s))
    ensures season >= 1
  {
    ExpectedExactly(s);
    hide Expected;
    var k :| k in Expected(s) && k.0 == season;
  }

  /** A text without seasons or episodes of its own stands for the whole series if it says so. */
  lemma FullSeriesIsAll(s: Subscription, f: TextFacts)
    requires f.seasons == {} && f.explicitEpisodes == {} && f.fullSeriesWord
    ensures TextKeys(Some(s), f) == Expected(s)
  {
  }

  /** Explicit episodes stand beside what is inferred; those of season 1, the default, move to the one
      season that the text names. */
  lemma TextKeysExactly(sub: Option<Subscription>, f: TextFacts, k: EpisodeKey)
    ensures sub.None? ==> (k in TextKeys(sub, f) <==> k in f.explicitEpisodes)
    ensures sub.Some? && |f.seasons| != 1 ==>
              (k in TextKeys(sub, f) <==> k in f.explicitEpisodes || k in PackKeys(sub.value, f))
    ensures sub.Some? ==> forall season :: f.seasons == {season} ==>
              (k in TextKeys(sub, f) <==>
                || k in PackKeys(sub.value, f) || (k in f.explicitEpisodes && (k.0 != 1 || season == 1))
                || (k.0 == season && (1, k.1) in f.explicitEpisodes))
  {
    hide PackKeys;
    if sub.Some? {
      forall season | f.seasons == {season}
        ensures (k in TextKeys(sub, f) <==>
                  || k in PackKeys(sub.value, f) || (k in f.explicitEpisodes && (k.0 != 1 || season == 1))
                  || (k.0 == season && (1, k.1) in f.explicitEpisodes))
      {
        Single(f.seasons, season, Lowest(f.seasons));
        MovedExactly(f.explicitEpisodes, season, k);
      }
    }
  }

  lemma MovedExactly(episodes: set<EpisodeKey>, season: int, k: EpisodeKey)
    ensures k in Remapped(episodes, season) <==>
              (k in episodes && k.0 != 1) || (k.0 == season && (1, k.1) in episodes)
  {
    if k.0 == season && (1, k.1) in episodes {
      var j := (1, k.1);
      assert j in episodes && k == (season, j.1);
    }
  }
}
