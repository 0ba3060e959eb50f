/** Episode keys of a subscription: what is expected, what is owned, what is missing. */
module EpisodeKeys {

  type EpisodeKey = (int, int)

  /** `tmdb_seasons` as (season number, episode count) pairs; `explicitKeys` are the keys Emby
      reported, from the live set or its stored form. */
  datatype Subscription = Subscription(
    mediaType: string,
    seasons: seq<(int, int)>,
    totalCount: int,
    explicitKeys: set<EpisodeKey>,
    embyCount: int,
    inLibrary: bool,
    snapshotFailed: bool,
    status: string)

  /** `season or 1`. */
  function OrOne(season: int): int { if season == 0 then 1 else season }

  /** `_expand_episode_range`; an end of 0 stands for the start. */
  function ExpandRange(season: int, start: int, end: int): (r: set<EpisodeKey>)
    ensures var last := if end == 0 then start else end;
            forall k :: k in r <==>
              k.0 == (if season == 0 then 1 else season) && 0 < start <= k.1 <= last <= start + 120
  {
    var last := if end == 0 then start else end;
    if start <= 0 || last < start || last - start > 120 then {}
    else
      var keys := set e | start <= e <= last :: (OrOne(season), e);
      assert forall k: EpisodeKey :: k.0 == OrOne(season) && start <= k.1 <= last ==>
          k == (OrOne(season), k.1) && k in keys;
      keys
  }

  function FirstEpisodes(season: int, count: int): set<EpisodeKey> { set e | 1 <= e <= count :: (season, e) }

  /** Keys the season table asks for: seasons and counts that are not positive are skipped. */
  function SeasonKeys(seasons: seq<(int, int)>): set<EpisodeKey> {
    if seasons == [] then {}
    else
      var (number, count) := seasons[|seasons| - 1];
      SeasonKeys(seasons[..|seasons| - 1]) + (if number <= 0 || count <= 0 then {} else FirstEpisodes(number, count))
  }

  /** `_all_tmdb_episode_keys`. */
  function Expected(s: Subscription): set<EpisodeKey> {
    if SeasonKeys(s.seasons) != {} then SeasonKeys(s.seasons) else FirstEpisodes(1, s.totalCount)
  }

  method AllTmdbEpisodeKeys(s: Subscription) returns (keys: set<EpisodeKey>)
    ensures keys == Expected(s)
  {
    keys := {};
    assert s.seasons[..0] == [];
    for i := 0 to |s.seasons|
      invariant keys == SeasonKeys(s.seasons[..i])
    {
      assert s.seasons[..i + 1][..i] == s.seasons[..i];
      var (number, count) := s.seasons[i];
      if number <= 0 || count <= 0 {
        continue;
      }
      keys := keys + set e | 1 <= e <= count :: (number, e);
    }
    assert s.seasons[..|s.seasons|] == s.seasons;
    if keys == {} {
      keys := set e | 1 <= e <= s.totalCount :: (1, e);
    }
  }

  predicate OnlySeasonOne(keys: set<EpisodeKey>) { forall k :: k in keys ==> k.0 == 1 }

  /** `owned_episode_keys`. */
  function Owned(s: Subscription): set<EpisodeKey> {
    if s.explicitKeys != {} then s.explicitKeys
    else if s.embyCount <= 0 then {}
    else if Expected(s) != {} && !OnlySeasonOne(Expected(s)) then {}
    else FirstEpisodes(1, s.embyCount)
  }

  /** `missing_episode_keys`. */
  function Missing(s: Subscription): set<EpisodeKey> {
    if s.mediaType != "tv" then {}
    else if Expected(s) == {} then {}
    else Expected(s) - Owned(s)
  }

  /** A season entry asks for this key. */
  predicate Asked(seasons: seq<(int, int)>, k: EpisodeKey) {
    exists i :: 0 <= i < |seasons| && seasons[i].0 == k.0 && k.0 >= 1 && 1 <= k.1 <= seasons[i].1
  }

  lemma {:induction false} SeasonKeysExactly(seasons: seq<(int, int)>)
    ensures forall k :: k in SeasonKeys(seasons) <==> Asked(seasons, k)
    decreases |seasons|
  {
    if seasons != [] {
      var n := |seasons| - 1;
      var init := seasons[..n];
      SeasonKeysExactly(init);
      forall k ensures k in SeasonKeys(seasons) <==> Asked(seasons, k) {
        if Asked(init, k) {
          var i :| 0 <= i < |init| && init[i].0 == k.0 && k.0 >= 1 && 1 <= k.1 <= init[i].1;
          assert seasons[i] == init[i];
        }
        if Asked(seasons, k) {
          var i :| 0 <= i < |seasons| && seasons[i].0 == k.0 && k.0 >= 1 && 1 <= k.1 <= seasons[i].1;
          if i < n { assert init[i] == seasons[i]; } else { assert k == (seasons[n].0, k.1); }
        }
        if k in SeasonKeys(seasons) && k !in SeasonKeys(init) {
          assert seasons[n].0 == k.0;
        }
      }
    }
  }

  /** What is expected: the positive seasons' episodes, or without any the first episodes of season 1. */
  lemma ExpectedExactly(s: Subscription)
    ensures forall k :: k in Expected(s) <==>
              || Asked(s.seasons, k)
              || ((forall j :: !Asked(s.seasons, j)) && k.0 == 1 && 1 <= k.1 <= s.totalCount)
  {
    SeasonKeysExactly(s.seasons);
    assert SeasonKeys(s.seasons) == {} <==> forall j :: !Asked(s.seasons, j);
    forall k ensures k in FirstEpisodes(1, s.totalCount) <==> k.0 == 1 && 1 <= k.1 <= s.totalCount {
      if k.0 == 1 && 1 <= k.1 <= s.totalCount { assert k == (1, k.1); }
    }
  }

  /** What is missing: expected keys of a series that Emby did not report; without reported keys a
      count stands for the first episodes of season 1, but only if no other season is expected. */
  lemma MissingExactly(s: Subscription)
    ensures forall k :: k in Missing(s) <==>
              && s.mediaType == "tv" && k in Expected(s) && k !in s.explicitKeys
              && !(s.explicitKeys == {} && (forall j :: j in Expected(s) ==> j.0 == 1) && k.1 <= s.embyCount)
  {
    ExpectedExactly(s);
    forall k | k in Expected(s) && k.0 == 1 && k.1 <= s.embyCount ensures k in FirstEpisodes(1, s.embyCount) {
      assert k == (1, k.1);
    }
  }

  /** Expected keys name positive seasons and episodes. */
  lemma {:induction false} SeasonKeysPositive(seasons: seq<(int, int)>)
    ensures forall k :: k in SeasonKeys(seasons) ==> k.0 >= 1 && k.1 >= 1
  {
    if seasons != [] {
      SeasonKeysPositive(seasons[..|seasons| - 1]);
    }
  }
}
