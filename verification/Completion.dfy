/** When a subscription counts as complete, and which candidates are still accepted for it. */
module Completion {
  import opened PyText
  import opened IntSets
  import opened EpisodeKeys

  // ------------------------------------------------------------- completeness

  /** `_subscription_is_complete`; the optional arguments override the row. */
  function IsComplete(s: Subscription, inLibrary: Option<bool>, embyCount: Option<int>): bool {
    var library := if inLibrary.Some? then inLibrary.value else s.inLibrary;
    var count := if embyCount.Some? then embyCount.value else s.embyCount;
    if s.mediaType == "movie" then library
    else if Expected(s) != {} then
      if Owned(s) != {} then Expected(s) <= Owned(s)
      else OnlySeasonOne(Expected(s)) && count >= |Expected(s)|
    else s.totalCount != 0 && count >= s.totalCount
  }

  /** `subscription_should_hide`. */
  function ShouldHide(s: Subscription): bool { s.status == "completed" || IsComplete(s, None, None) }

  predicate CountReaches(s: Subscription, embyCount: Option<int>) {
    OnlySeasonOne(Expected(s)) && (if embyCount.Some? then embyCount.value else s.embyCount) >= |Expected(s)|
  }

  /** With any count argument: nothing is missing, or the count stands in for absent season 1 keys. */
  lemma CompleteExactly(s: Subscription, inLibrary: Option<bool>, embyCount: Option<int>)
    requires s.mediaType == "tv" && Expected(s) != {}
    ensures IsComplete(s, inLibrary, embyCount)
            <==> (Missing(s) == {} || (Owned(s) == {} && CountReaches(s, embyCount)))
  {
    assert Missing(s) == {} <==> Expected(s) <= Owned(s) by {
      forall k | k in Expected(s) ensures k in Missing(s) || k in Owned(s) {}
    }
  }

  /** With the count of the row itself, complete means that no episode is missing. */
  lemma CompleteIffNothingMissing(s: Subscription, inLibrary: Option<bool>, embyCount: Option<int>)
    requires s.mediaType == "tv" && Expected(s) != {}
    requires embyCount.None? || embyCount.value == s.embyCount
    ensures IsComplete(s, inLibrary, embyCount) <==> Missing(s) == {}
  {
    CompleteExactly(s, inLibrary, embyCount);
    if s.embyCount >= 1 {
      assert (1, 1) in FirstEpisodes(1, s.embyCount);
    }
  }

  /** A count argument that disagrees with the row completes a subscription with missing episodes. */
  lemma CountArgumentOverrules() returns (s: Subscription)
    ensures s.mediaType == "tv" && Expected(s) != {} && Missing(s) != {}
    ensures IsComplete(s, None, Some(1)) && !IsComplete(s, None, None)
  {
    s := Subscription("tv", [], 1, {}, 0, false, false, "active");
    assert FirstEpisodes(1, 1) == {(1, 1)};
    CompleteIffNothingMissing(s, None, None);
  }

  /** A film is complete exactly if the library has it, whatever it expects or counts. */
  lemma FilmComplete(s: Subscription, inLibrary: Option<bool>, embyCount: Option<int>)
    requires s.mediaType == "movie"
    ensures IsComplete(s, inLibrary, embyCount) <==> inLibrary == Some(true) || (inLibrary.None? && s.inLibrary)
  {
  }

  /** A series that expects nothing is not complete by any count, unless its total is negative. */
  lemma NothingExpectedIncomplete(s: Subscription, inLibrary: Option<bool>, embyCount: Option<int>)
    requires s.mediaType == "tv" && Expected(s) == {}
    ensures IsComplete(s, inLibrary, embyCount) <==>
              s.totalCount < 0 && (if embyCount.Some? then embyCount.value else s.embyCount) >= s.totalCount
  {
    assert s.totalCount > 0 ==> (1, 1) in FirstEpisodes(1, s.totalCount);
  }

  /** What is hidden: what is marked as completed, films in the library, and series that miss nothing. */
  lemma HiddenExactly(s: Subscription)
    requires s.mediaType == "movie" || (s.mediaType == "tv" && s.totalCount >= 0)
    ensures ShouldHide(s) <==>
              || s.status == "completed"
              || (s.mediaType == "movie" && s.inLibrary)
              || (s.mediaType == "tv" && Expected(s) != {} && Missing(s) == {})
  {
    if s.mediaType == "tv" {
      if Expected(s) == {} {
        NothingExpectedIncomplete(s, None, None);
      } else {
        CompleteIffNothingMissing(s, None, None);
      }
    }
  }

  // --------------------------------------------------------------- candidates

  /** What the text and link rules said about one search result. */
  datatype Candidate = Candidate(
    validLink: bool,
    matchesSubscription: bool,
    skipReason: string,
    episodes: set<EpisodeKey>,
    primary115: bool,
    sitePlugin: bool,
    carriesTmdbId: bool)

  datatype Decision = Decision(
    accepted: bool,
    reason: string,
    episodes: set<EpisodeKey>,
    missing: set<EpisodeKey>,
    coverage: set<EpisodeKey>)

  /** `result_matches_missing_episodes`. */
  function MatchesMissing(s: Subscription, c: Candidate): bool {
    if s.mediaType != "tv" then s.snapshotFailed || !s.inLibrary
    else if s.snapshotFailed then true
    else if c.episodes != {} && Owned(s) != {} && c.episodes <= Owned(s) then false
    else if Expected(s) == {} then !(c.episodes != {} && Owned(s) != {})
    else if Missing(s) == {} then false
    else if c.episodes != {} then c.episodes * Missing(s) != {}
    else c.primary115 || (c.sitePlugin && c.carriesTmdbId)
  }

  function OrElse(reason: string, default: string): string { if reason != "" then reason else default }

  /** `_candidate_reject_reason`. */
  function RejectReason(s: Subscription, c: Candidate, coverage: set<EpisodeKey>): string {
    if !c.validLink then "invalid_download_link"
    else if !c.matchesSubscription then OrElse(c.skipReason, "subscription_mismatch")
    else if !MatchesMissing(s, c) then
      if s.mediaType == "tv" && c.episodes != {} then
        if coverage == {} then "episodes_already_in_library" else "episodes_not_needed"
      else if s.mediaType != "tv" && s.inLibrary then "movie_already_in_library"
      else OrElse(c.skipReason, "missing_episode_mismatch")
    else ""
  }

  /** `decide_resource_candidate`, without the score. */
  function Decide(s: Subscription, c: Candidate): Decision {
    var missing := Missing(s);
    var coverage := if missing != {} then c.episodes * missing else {};
    var reason := RejectReason(s, c, coverage);
    Decision(reason == "", OrElse(reason, "matched"), c.episodes, missing, coverage)
  }

  /** A series that is hidden without being marked as completed, and whose library state is known, accepts nothing. */
  lemma CompleteAcceptsNothing(s: Subscription, c: Candidate)
    requires s.mediaType == "tv" && Expected(s) != {} && !s.snapshotFailed
    ensures ShouldHide(s) && s.status != "completed" ==> !Decide(s, c).accepted
  {
    CompleteIffNothingMissing(s, None, None);
  }

  /** Of the candidates for a film, with known library state, none is accepted once it is hidden
      as complete, and before that every valid match. */
  lemma FilmAcceptedExactly(s: Subscription, c: Candidate)
    requires s.mediaType == "movie" && s.status != "completed" && !s.snapshotFailed
    ensures Decide(s, c).accepted <==> c.validLink && c.matchesSubscription && !ShouldHide(s)
  {
  }

  /** While the library cannot be read, every valid match is accepted, even for what looks complete. */
  lemma UnreadLibraryAcceptsAll(s: Subscription, c: Candidate)
    requires s.snapshotFailed
    ensures Decide(s, c).accepted <==> c.validLink && c.matchesSubscription
  {
  }

  /** A series without expected episodes accepts every valid match until both it owns episodes and
      the candidate names some. */
  lemma UnknownSeriesAccepts(s: Subscription, c: Candidate)
    requires s.mediaType == "tv" && Expected(s) == {} && !s.snapshotFailed
    ensures Decide(s, c).accepted <==> c.validLink && c.matchesSubscription && (c.episodes == {} || Owned(s) == {})
  {
  }

  /** A candidate that names no episode passes for an incomplete series only from a trusted source. */
  lemma UnnamedAcceptedExactly(s: Subscription, c: Candidate)
    requires s.mediaType == "tv" && !s.snapshotFailed && c.episodes == {} && Missing(s) != {}
    ensures Decide(s, c).accepted <==>
              c.validLink && c.matchesSubscription && (c.primary115 || (c.sitePlugin && c.carriesTmdbId))
  {
  }

  /** A candidate with parsed episodes is accepted for an incomplete series only if it covers a missing one. */
  lemma AcceptedCovers(s: Subscription, c: Candidate)
    requires s.mediaType == "tv" && Expected(s) != {} && !s.snapshotFailed && c.episodes != {}
    ensures Decide(s, c).accepted
            <==> c.validLink && c.matchesSubscription && c.episodes * Missing(s) != {}
  {
    if c.episodes * Missing(s) != {} {
      var k := Member(c.episodes * Missing(s));
      assert k in c.episodes && k !in Owned(s);
    }
  }

  /** The rejection `episodes_not_needed` is never given by the code's own reasons. */
  lemma NotNeededNeverGiven(s: Subscription, c: Candidate)
    requires c.skipReason != "episodes_not_needed"
    ensures Decide(s, c).reason != "episodes_not_needed"
  {
    if Decide(s, c).coverage != {} {
      var k := Member(c.episodes * Missing(s));
      assert k in c.episodes && k !in Owned(s);
    }
  }

  /**
   The reasons as a reader meets them.  A match with parsed episodes is refused with one reason
   alone: that they are in the library, even if they are not, but no episode is missing that it has.
   */
  lemma ReasonsExactly(s: Subscription, c: Candidate)
    requires c.skipReason !in {"invalid_download_link", "matched", "episodes_already_in_library",
                               "movie_already_in_library"}
    ensures var d, matched := Decide(s, c), c.validLink && c.matchesSubscription;
            && (d.reason == "matched" <==> d.accepted)
            && (d.reason == "invalid_download_link" <==> !c.validLink)
            && (d.reason == "episodes_already_in_library"
                <==> matched && s.mediaType == "tv" && c.episodes != {} && !d.accepted)
            && (d.reason == "movie_already_in_library"
                <==> matched && s.mediaType != "tv" && s.inLibrary && !s.snapshotFailed)
    ensures var d := Decide(s, c);
            && (c.validLink && !c.matchesSubscription ==>
                d.reason == if c.skipReason == "" then "subscription_mismatch" else c.skipReason)
            && (c.validLink && c.matchesSubscription && s.mediaType == "tv" && c.episodes == {} && !d.accepted ==>
                d.reason == if c.skipReason == "" then "missing_episode_mismatch" else c.skipReason)
  {
    hide Expected, Owned;
    ReasonWords();
    if c.episodes * Missing(s) != {} {
      NotOwnedNeeded(s, c);
    }
  }

  lemma NotOwnedNeeded(s: Subscription, c: Candidate)
    requires c.episodes * Missing(s) != {}
    ensures MatchesMissing(s, c)
  {
    var k := Member(c.episodes * Missing(s));
    assert k in c.episodes && k !in Owned(s);
  }

  lemma ReasonWords()
    ensures |"matched"| == 7 && |"invalid_download_link"| == 21 && |"episodes_already_in_library"| == 27
    ensures |"movie_already_in_library"| == 24 && |"subscription_mismatch"| == 21
    ensures "subscription_mismatch" != "invalid_download_link" && |"missing_episode_mismatch"| == 24
    ensures "missing_episode_mismatch" != "movie_already_in_library" && |"episodes_not_needed"| == 19
  {
    assert "subscription_mismatch"[0] != "invalid_download_link"[0];
    assert "missing_episode_mismatch"[1] != "movie_already_in_library"[1];
  }

  // ------------------------------------------------- what an acceptance achieves

  /** The subscription once Emby also reports these episodes. */
  function Adopt(s: Subscription, episodes: set<EpisodeKey>): Subscription {
    s.(explicitKeys := Owned(s) + episodes)
  }

  /** Adopting an accepted candidate removes exactly its coverage from what is missing. */
  lemma AdoptionProgress(s: Subscription, c: Candidate)
    requires s.mediaType == "tv" && Expected(s) != {} && !s.snapshotFailed && c.episodes != {}
    ensures var d := Decide(s, c);
            Missing(Adopt(s, c.episodes)) == d.missing - d.coverage
              && (d.accepted ==> |Missing(Adopt(s, c.episodes))| < |d.missing|)
  {
    var d := Decide(s, c);
    var t := Adopt(s, c.episodes);
    assert t.explicitKeys != {} by {
      var k := Member(c.episodes);
      assert k in t.explicitKeys;
    }
    assert Expected(t) == Expected(s);
    assert Missing(t) == d.missing - d.coverage;
    if d.accepted {
      AcceptedCovers(s, c);
      var k := Member(d.coverage);
      assert k in d.missing && k !in Missing(t);
      SmallerWithout(Missing(t), d.missing, k);
    }
  }

  lemma SmallerWithout<T>(a: set<T>, b: set<T>, k: T)
    requires a <= b && k in b && k !in a
    ensures |a| < |b|
  {
    SubsetSize(a, b - {k});
  }

  lemma {:induction false} SubsetSize<T>(a: set<T>, b: set<T>)
    requires a <= b
    ensures |a| <= |b| && (|a| == |b| ==> a == b)
    decreases |a|
  {
    if a != {} {
      var k := Member(a);
      SubsetSize(a - {k}, b - {k});
      assert a == (a - {k}) + {k} && b == (b - {k}) + {k};
    }
  }

  /** One candidate covering all that is missing completes the subscription, and only such a one does. */
  lemma CoverageCompletes(s: Subscription, c: Candidate)
    requires s.mediaType == "tv" && Expected(s) != {} && !s.snapshotFailed && c.episodes != {}
    ensures IsComplete(Adopt(s, c.episodes), None, None) <==> Decide(s, c).coverage == Missing(s)
  {
    AdoptionProgress(s, c);
    CompleteIffNothingMissing(Adopt(s, c.episodes), None, None);
    var d := Decide(s, c);
    assert d.coverage <= d.missing;
    if d.missing - d.coverage == {} {
      forall k | k in d.missing ensures k in d.coverage { assert k !in d.missing - d.coverage; }
    }
  }

  // ------------------------------------------------------------ fallback order

  /** The first entries of `fallback_candidate_sort_key`; `rest` holds the text preferences. */
  function FallbackKey(d: Decision, rest: seq<int>): seq<int> {
    var exact := d.episodes != {} && d.episodes == d.coverage;
    var full := d.missing != {} && d.episodes != {} && d.episodes == d.missing;
    [if full then 0 else 1, -|d.coverage|, if exact then 0 else 1] + rest
  }

  /** Python's tuple comparison. */
  predicate LexLess(a: seq<int>, b: seq<int>)
    decreases |a|
  {
    if b == [] then false
    else if a == [] then true
    else if a[0] != b[0] then a[0] < b[0]
    else LexLess(a[1..], b[1..])
  }

  /** More missing episodes covered always sorts first: the leading full-pack flag never overrules it. */
  lemma CoverageRulesOrder(s: Subscription, c: Candidate, crest: seq<int>, d: Candidate, drest: seq<int>)
    requires |Decide(s, c).coverage| > |Decide(s, d).coverage|
    ensures LexLess(FallbackKey(Decide(s, c), crest), FallbackKey(Decide(s, d), drest))
  {
    var x, y := Decide(s, c), Decide(s, d);
    SubsetSize(x.coverage, x.missing);
    assert y.episodes == y.missing ==> y.coverage == y.missing;
    assert FallbackKey(x, crest)[1..][0] == -|x.coverage|;
    assert FallbackKey(y, drest)[1..][0] == -|y.coverage|;
  }

  /** Among equal coverage, a candidate that carries nothing else sorts before one that does. */
  lemma ExactBeatsLoose(s: Subscription, c: Candidate, crest: seq<int>, d: Candidate, drest: seq<int>)
    requires Missing(s) != {} && c.episodes != {} && c.episodes <= Missing(s) && !(d.episodes <= Missing(s))
    requires |Decide(s, c).coverage| == |Decide(s, d).coverage|
    ensures LexLess(FallbackKey(Decide(s, c), crest), FallbackKey(Decide(s, d), drest))
  {
    var x, y := Decide(s, c), Decide(s, d);
    assert x.coverage == c.episodes;
    assert y.coverage <= Missing(s) && y.episodes != y.coverage && y.episodes != y.missing;
    var p, q := FallbackKey(x, crest), FallbackKey(y, drest);
    assert p[1..][0] == -|x.coverage| && q[1..][0] == -|y.coverage|;
    assert p[1..][1..][0] == 0 && q[1..][1..][0] == 1;
  }

  /** Of different keys exactly one sorts first. */
  lemma {:induction false} LexTotal(a: seq<int>, b: seq<int>)
    ensures !(LexLess(a, b) && LexLess(b, a))
    ensures a == b || LexLess(a, b) || LexLess(b, a)
    decreases |a|
  {
    if a != [] && b != [] {
      LexTotal(a[1..], b[1..]);
      assert a == [a[0]] + a[1..] && b == [b[0]] + b[1..];
    }
  }

  lemma LexRest(a: seq<int>, b: seq<int>)
    requires a != [] && b != [] && a[0] == b[0]
    ensures LexLess(a, b) <==> LexLess(a[1..], b[1..])
  {
  }

  /** Of candidates for one subscription, the leading flag decides nothing: the order is that of the
      keys without it. */
  lemma FullFlagRedundant(s: Subscription, c: Candidate, crest: seq<int>, d: Candidate, drest: seq<int>)
    ensures var p, q := FallbackKey(Decide(s, c), crest), FallbackKey(Decide(s, d), drest);
            LexLess(p, q) <==> LexLess(p[1..], q[1..])
  {
    var x, y := Decide(s, c), Decide(s, d);
    var p, q := FallbackKey(x, crest), FallbackKey(y, drest);
    if p[0] == q[0] {
      LexRest(p, q);
    } else {
      SubsetSize(x.coverage, x.missing);
      SubsetSize(y.coverage, y.missing);
      KeyParts(x, crest);
      KeyParts(y, drest);
      LexSecond(p[1..], q[1..]);
      assert x.episodes == x.missing ==> x.coverage == x.missing;
      assert y.episodes == y.missing ==> y.coverage == y.missing;
    }
  }

  lemma KeyParts(d: Decision, rest: seq<int>)
    ensures var p := FallbackKey(d, rest);
            && |p[1..]| >= 2 && p[1..][0] == -|d.coverage|
            && p[1..][1] == (if d.episodes != {} && d.episodes == d.coverage then 0 else 1)
            && p[1..][2..] == rest
  {
  }

  lemma LexSecond(a: seq<int>, b: seq<int>)
    requires |a| >= 2 && |b| >= 2
    ensures LexLess(a, b) <==>
              || a[0] < b[0]
              || (a[0] == b[0] && (a[1] < b[1] || (a[1] == b[1] && LexLess(a[2..], b[2..]))))
  {
    assert a[1..][0] == a[1] && b[1..][0] == b[1];
    assert a[1..][1..] == a[2..] && b[1..][1..] == b[2..];
  }

  /** Candidates that cover nothing missing are ordered by their text preferences alone. */
  lemma NoCoverageTies(s: Subscription, c: Candidate, crest: seq<int>, d: Candidate, drest: seq<int>)
    requires Decide(s, c).coverage == {} && Decide(s, d).coverage == {}
    ensures LexLess(FallbackKey(Decide(s, c), crest), FallbackKey(Decide(s, d), drest)) <==> LexLess(crest, drest)
  {
    var x, y := Decide(s, c), Decide(s, d);
    FullFlagRedundant(s, c, crest, d, drest);
    KeyParts(x, crest);
    KeyParts(y, drest);
    LexSecond(FallbackKey(x, crest)[1..], FallbackKey(y, drest)[1..]);
  }
}
