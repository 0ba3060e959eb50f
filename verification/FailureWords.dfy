/** What a delivery error has to say to be of each class, told from the characters of the message. */
module FailureWords {
  import opened PyText
  import opened ShareLinks
  import opened DeliveryState
  import opened DeliveryRetry

  // ------------------------------------------------------------------ the words

  ghost predicate SaysFlood(m: string) { SaysAny(m, ["flood", "too many requests", "slowmode"]) }

  ghost predicate SaysAuth(m: string) {
    SaysAny(m, ["cookie", "auth_required", "\U{672A}\U{914D}\U{7F6E}", "\U{8BF7}\U{5148}\U{767B}\U{5F55}",
                "login required", "unauthorized", "401", "403"])
  }

  ghost predicate SaysInvalid(m: string) {
    SaysAny(m, ["\U{683C}\U{5F0F}\U{65E0}\U{6548}", "\U{94FE}\U{63A5}\U{4E3A}\U{7A7A}", "\U{5931}\U{6548}",
                "\U{4E0D}\U{53EF}\U{7528}", "invalid", "unavailable", "password_error", "not_found", "expired",
                "cancelled"])
  }

  ghost predicate SaysTimeout(m: string) { SaysAny(m, ["timeout", "timed out", "time out", "\U{8D85}\U{65F6}"]) }

  ghost predicate SaysRate(m: string) { SaysAny(m, ["rate_limited", "rate limit", "429", "\U{9650}\U{6D41}"]) }

  ghost predicate SaysNetwork(m: string) { SaysAny(m, ["network", "connection", "proxy", "tls", "ssl"]) }

  ghost predicate SaysTemporary(m: string) {
    SaysAny(m, ["temporar", "500", "502", "503", "504", "busy", "locked"])
  }

  /** Words that contain another word of the list never matter. */
  lemma FewerWords(m: string, words: seq<string>, few: seq<string>)
    requires (forall w :: w in words ==> NoCapitals(w)) && (forall w :: w in few ==> w in words)
    requires forall w :: w in words && Says(m, w) ==> SaysAny(m, few)
    ensures ContainsAny(Lower(m), words) <==> SaysAny(m, few)
  {
    hide NoCapitals, Says, Lower, Contains, ContainsAny;
    SaysContainsAny(m, words);
  }

  lemma FloodSaid(m: string)
    ensures ContainsAny(Lower(m), FLOOD_WORDS) <==> SaysFlood(m)
  {
    var few := ["flood", "too many requests", "slowmode"];
    assert forall w :: w in FLOOD_WORDS ==> NoCapitals(w);
    assert forall w :: w in FLOOD_WORDS ==> w in few || w == "floodwait" || w == "peer flood";
    assert (forall w :: w in few ==> w in FLOOD_WORDS) && few[0] == "flood" && "flood" in few;
    if Says(m, "floodwait") { SaysPart(m, "floodwait", 0, few[0]); }
    if Says(m, "peer flood") { SaysPart(m, "peer flood", 5, few[0]); }
    hide NoCapitals, Says, Lower, ContainsAny, FLOOD_WORDS;
    FewerWords(m, FLOOD_WORDS, few);
  }

  lemma InvalidSaid(m: string)
    ensures ContainsAny(Lower(m), INVALID_WORDS) <==> SaysInvalid(m)
  {
    var few := ["\U{683C}\U{5F0F}\U{65E0}\U{6548}", "\U{94FE}\U{63A5}\U{4E3A}\U{7A7A}", "\U{5931}\U{6548}",
                "\U{4E0D}\U{53EF}\U{7528}", "invalid", "unavailable", "password_error", "not_found", "expired",
                "cancelled"];
    var long, longer := "\U{5DF2}\U{5931}\U{6548}", "\U{5206}\U{4EAB}\U{94FE}\U{63A5}\U{5DF2}\U{5931}\U{6548}";
    InvalidFew(few, long, longer);
    assert few[2] == "\U{5931}\U{6548}" && few[2] in few;
    if Says(m, long) { SaysPart(m, long, 1, few[2]); }
    if Says(m, longer) { SaysPart(m, longer, 5, few[2]); }
    assert SaysInvalid(m) == SaysAny(m, few);
    hide NoCapitals, Says, Lower, ContainsAny, INVALID_WORDS, SaysInvalid;
    FewerWords(m, INVALID_WORDS, few);
  }

  lemma InvalidFew(few: seq<string>, long: string, longer: string)
    requires few == ["\U{683C}\U{5F0F}\U{65E0}\U{6548}", "\U{94FE}\U{63A5}\U{4E3A}\U{7A7A}", "\U{5931}\U{6548}",
                     "\U{4E0D}\U{53EF}\U{7528}", "invalid", "unavailable", "password_error", "not_found", "expired",
                     "cancelled"]
    requires long == "\U{5DF2}\U{5931}\U{6548}"
    requires longer == "\U{5206}\U{4EAB}\U{94FE}\U{63A5}\U{5DF2}\U{5931}\U{6548}"
    ensures forall w :: w in INVALID_WORDS ==> NoCapitals(w) && (w in few || w == long || w == longer)
    ensures forall w :: w in few ==> w in INVALID_WORDS
  {
  }

  lemma UnknownSaid(m: string)
    ensures Contains(Lower(m), "unknown") <==> Says(m, "unknown")
  {
    SaysContains(m, "unknown");
  }

  lemma AuthSaid(m: string)
    ensures ContainsAny(Lower(m), AUTH_WORDS) <==> SaysAuth(m)
  {
    assert forall w :: w in AUTH_WORDS ==> NoCapitals(w);
    hide NoCapitals, Says, SaysAny, ContainsAny, Lower;
    SaysContainsAny(m, AUTH_WORDS);
  }

  lemma TimeoutSaid(m: string)
    ensures ContainsAny(Lower(m), TIMEOUT_WORDS) <==> SaysTimeout(m)
  {
    assert forall w :: w in TIMEOUT_WORDS ==> NoCapitals(w);
    hide NoCapitals, Says, SaysAny, ContainsAny, Lower;
    SaysContainsAny(m, TIMEOUT_WORDS);
  }

  lemma RateSaid(m: string)
    ensures ContainsAny(Lower(m), RATE_WORDS) <==> SaysRate(m)
  {
    assert forall w :: w in RATE_WORDS ==> NoCapitals(w);
    hide NoCapitals, Says, SaysAny, ContainsAny, Lower;
    SaysContainsAny(m, RATE_WORDS);
  }

  lemma NetworkSaid(m: string)
    ensures ContainsAny(Lower(m), NETWORK_WORDS) <==> SaysNetwork(m)
  {
    assert forall w :: w in NETWORK_WORDS ==> NoCapitals(w);
    hide NoCapitals, Says, SaysAny, ContainsAny, Lower;
    SaysContainsAny(m, NETWORK_WORDS);
  }

  lemma TemporarySaid(m: string)
    ensures ContainsAny(Lower(m), TEMPORARY_WORDS) <==> SaysTemporary(m)
  {
    assert forall w :: w in TEMPORARY_WORDS ==> NoCapitals(w);
    hide NoCapitals, Says, SaysAny, ContainsAny, Lower;
    SaysContainsAny(m, TEMPORARY_WORDS);
  }

  ghost predicate Blank(m: string) { forall j :: 0 <= j < |m| ==> IsSpace(m[j]) }

  lemma LowerSpaces(c: char)
    ensures IsSpace(AsciiLower(c)) <==> IsSpace(c)
  {
  }

  lemma BlankLower(m: string)
    ensures Strip(Lower(m)) == "" <==> Blank(m)
  {
    var text := Lower(m);
    hide IsSpace, Strip, AsciiLower;
    StripBlank(text);
    forall j | 0 <= j < |m| ensures IsSpace(text[j]) <==> IsSpace(m[j]) {
      LowerSpaces(m[j]);
      assert text[j] == AsciiLower(m[j]);
    }
  }

  /** None of the words before those of a time-out. */
  ghost predicate SaysNoneBefore(m: string) {
    !SaysFlood(m) && !SaysAuth(m) && !Says(m, "unknown") && !SaysInvalid(m)
  }

  /** The class of every message by what it says: the first list that it has a word of decides, and
      some words of the lists never matter. */
  lemma ClassesExactly(m: string)
    ensures Classify(m) == Flood <==> SaysFlood(m) && !Blank(m)
    ensures Classify(m) == Auth <==> !SaysFlood(m) && SaysAuth(m) && !Blank(m)
    ensures Classify(m) == Invalid <==>
              !SaysFlood(m) && !SaysAuth(m) && !Says(m, "unknown") && SaysInvalid(m) && !Blank(m)
    ensures Classify(m) == Timeout <==> SaysNoneBefore(m) && SaysTimeout(m) && !Blank(m)
    ensures Classify(m) == Rate <==> SaysNoneBefore(m) && !SaysTimeout(m) && SaysRate(m) && !Blank(m)
    ensures Classify(m) == Network <==>
              SaysNoneBefore(m) && !SaysTimeout(m) && !SaysRate(m) && SaysNetwork(m) && !Blank(m)
    ensures Classify(m) == Final <==>
              && !Blank(m) && SaysNoneBefore(m)
              && !SaysTimeout(m) && !SaysRate(m) && !SaysNetwork(m) && !SaysTemporary(m)
  {
    hide Says, SaysAny, ContainsAny, Contains, Blank, Strip, Lower, SaysFlood, SaysAuth, SaysInvalid, SaysTimeout,
      SaysRate, SaysNetwork, SaysTemporary, NoCapitals;
    BlankLower(m);
    FloodSaid(m);
    AuthSaid(m);
    UnknownSaid(m);
    InvalidSaid(m);
    TimeoutSaid(m);
    RateSaid(m);
    NetworkSaid(m);
    TemporarySaid(m);
    hide FLOOD_WORDS, AUTH_WORDS, INVALID_WORDS, TIMEOUT_WORDS, RATE_WORDS, NETWORK_WORDS, TEMPORARY_WORDS;
  }

  // -------------------------------------------------------- errors the program writes

  /** A word is not said if one of its characters is missing. */
  lemma NotSaid(m: string, word: string, k: nat)
    requires k < |word| && forall j :: 0 <= j < |m| ==> !Lowers(m[j], word[k])
    ensures !Says(m, word)
  {
    forall i | 0 <= i <= |m| ensures !SaysAt(m, i, word) {
      assert i + |word| <= |m| ==> !Lowers(m[i + k], word[k]);
    }
  }

  /** Chinese characters other than those that tell the Chinese words apart. */
  predicate Neutral(c: char) {
    && c >= '\U{3000}' && c != '\U{672A}' && c != '\U{8BF7}' && c != '\U{683C}' && c != '\U{94FE}'
    && c != '\U{6548}' && c != '\U{4E0D}'
  }

  predicate StuckChar(c: char) {
    Neutral(c) || c == 'p' || c == 'e' || c == 'n' || c == 'd' || c == 'i' || c == 'g' || c == ' '
  }

  predicate CandidateChar(c: char) { Neutral(c) && c != '\U{8D85}' && c != '\U{9650}' }

  lemma StuckFlood(m: string)
    requires forall j :: 0 <= j < |m| ==> StuckChar(m[j])
    ensures !SaysFlood(m)
  {
    NotSaid(m, "flood", 0);
    NotSaid(m, "too many requests", 0);
    NotSaid(m, "slowmode", 0);
    hide Says;
  }

  lemma StuckAuth(m: string)
    requires forall j :: 0 <= j < |m| ==> StuckChar(m[j])
    ensures !SaysAuth(m)
  {
    NotSaid(m, "cookie", 0);
    NotSaid(m, "auth_required", 0);
    NotSaid(m, "\U{672A}\U{914D}\U{7F6E}", 0);
    NotSaid(m, "\U{8BF7}\U{5148}\U{767B}\U{5F55}", 0);
    NotSaid(m, "login required", 0);
    NotSaid(m, "unauthorized", 0);
    NotSaid(m, "401", 0);
    NotSaid(m, "403", 0);
    hide Says;
  }

  lemma StuckUnknown(m: string)
    requires forall j :: 0 <= j < |m| ==> StuckChar(m[j])
    ensures !Says(m, "unknown")
  {
    NotSaid(m, "unknown", 0);
  }

  lemma StuckInvalid(m: string)
    requires forall j :: 0 <= j < |m| ==> StuckChar(m[j])
    ensures !SaysInvalid(m)
  {
    NotSaid(m, "\U{683C}\U{5F0F}\U{65E0}\U{6548}", 0);
    NotSaid(m, "\U{94FE}\U{63A5}\U{4E3A}\U{7A7A}", 0);
    NotSaid(m, "\U{5931}\U{6548}", 1);
    NotSaid(m, "\U{4E0D}\U{53EF}\U{7528}", 0);
    NotSaid(m, "invalid", 2);
    NotSaid(m, "unavailable", 0);
    NotSaid(m, "password_error", 1);
    NotSaid(m, "not_found", 1);
    NotSaid(m, "expired", 1);
    NotSaid(m, "cancelled", 0);
    hide Says;
  }

  lemma CandidateFlood(m: string)
    requires forall j :: 0 <= j < |m| ==> CandidateChar(m[j])
    ensures !SaysFlood(m)
  {
    NotSaid(m, "flood", 0);
    NotSaid(m, "too many requests", 0);
    NotSaid(m, "slowmode", 0);
    hide Says;
  }

  lemma CandidateAuth(m: string)
    requires forall j :: 0 <= j < |m| ==> CandidateChar(m[j])
    ensures !SaysAuth(m)
  {
    NotSaid(m, "cookie", 0);
    NotSaid(m, "auth_required", 0);
    NotSaid(m, "\U{672A}\U{914D}\U{7F6E}", 0);
    NotSaid(m, "\U{8BF7}\U{5148}\U{767B}\U{5F55}", 0);
    NotSaid(m, "login required", 0);
    NotSaid(m, "unauthorized", 0);
    NotSaid(m, "401", 0);
    NotSaid(m, "403", 0);
    hide Says;
  }

  lemma CandidateUnknown(m: string)
    requires forall j :: 0 <= j < |m| ==> CandidateChar(m[j])
    ensures !Says(m, "unknown")
  {
    NotSaid(m, "unknown", 0);
  }

  lemma CandidateInvalid(m: string)
    requires forall j :: 0 <= j < |m| ==> CandidateChar(m[j])
    ensures !SaysInvalid(m)
  {
    NotSaid(m, "\U{683C}\U{5F0F}\U{65E0}\U{6548}", 0);
    NotSaid(m, "\U{94FE}\U{63A5}\U{4E3A}\U{7A7A}", 0);
    NotSaid(m, "\U{5931}\U{6548}", 1);
    NotSaid(m, "\U{4E0D}\U{53EF}\U{7528}", 0);
    NotSaid(m, "invalid", 0);
    NotSaid(m, "unavailable", 0);
    NotSaid(m, "password_error", 0);
    NotSaid(m, "not_found", 0);
    NotSaid(m, "expired", 0);
    NotSaid(m, "cancelled", 0);
    hide Says;
  }

  lemma CandidateTimeout(m: string)
    requires forall j :: 0 <= j < |m| ==> CandidateChar(m[j])
    ensures !SaysTimeout(m)
  {
    NotSaid(m, "timeout", 0);
    NotSaid(m, "timed out", 0);
    NotSaid(m, "time out", 0);
    NotSaid(m, "\U{8D85}\U{65F6}", 0);
    hide Says;
  }

  lemma CandidateRate(m: string)
    requires forall j :: 0 <= j < |m| ==> CandidateChar(m[j])
    ensures !SaysRate(m)
  {
    NotSaid(m, "rate_limited", 0);
    NotSaid(m, "rate limit", 0);
    NotSaid(m, "429", 0);
    NotSaid(m, "\U{9650}\U{6D41}", 0);
    hide Says;
  }

  lemma CandidateNetwork(m: string)
    requires forall j :: 0 <= j < |m| ==> CandidateChar(m[j])
    ensures !SaysNetwork(m)
  {
    NotSaid(m, "network", 0);
    NotSaid(m, "connection", 0);
    NotSaid(m, "proxy", 0);
    NotSaid(m, "tls", 0);
    NotSaid(m, "ssl", 0);
    hide Says;
  }

  lemma CandidateTemporary(m: string)
    requires forall j :: 0 <= j < |m| ==> CandidateChar(m[j])
    ensures !SaysTemporary(m)
  {
    NotSaid(m, "temporar", 0);
    NotSaid(m, "500", 0);
    NotSaid(m, "502", 0);
    NotSaid(m, "503", 0);
    NotSaid(m, "504", 0);
    NotSaid(m, "busy", 0);
    NotSaid(m, "locked", 0);
    hide Says;
  }

  lemma StuckChars()
    ensures forall j :: 0 <= j < |STUCK_ERROR| ==> StuckChar(STUCK_ERROR[j])
    ensures SaysTimeout(STUCK_ERROR) && !Blank(STUCK_ERROR)
  {
    var words := ["timeout", "timed out", "time out", "\U{8D85}\U{65F6}"];
    assert SaysAt(STUCK_ERROR, 15, words[3]);
    assert words[3] in words && Says(STUCK_ERROR, words[3]);
    assert !IsSpace(STUCK_ERROR[0]);
  }

  lemma CandidateChars()
    ensures forall j :: 0 <= j < |CANDIDATE_ERROR| ==> CandidateChar(CANDIDATE_ERROR[j])
    ensures !Blank(CANDIDATE_ERROR)
  {
    assert !IsSpace(CANDIDATE_ERROR[0]);
  }

  /** A row that hung while pending is retried from a minute after it was marked on, at first. */
  lemma StuckRetriedExactly(row: Row, now: int, later: int)
    requires row.status == "pending" && row.retryCount == 0
    ensures ListedStatus(SetBack(row, Stuck, now).status)
    ensures Decide(SetBack(row, Stuck, now), later) == Act <==> later >= now + 60
  {
    var m := STUCK_ERROR;
    StuckChars();
    assert SetbackError(row.lastError, Stuck) == m;
    hide *;
    StuckFlood(m);
    StuckAuth(m);
    StuckUnknown(m);
    StuckInvalid(m);
    TimedOut(m);
    GivenUpRetriedExactly(row, Stuck, now, later);
  }

  lemma TimedOut(m: string)
    requires !SaysFlood(m) && !SaysAuth(m) && !Says(m, "unknown") && !SaysInvalid(m) && SaysTimeout(m) && !Blank(m)
    ensures Classify(m) == Timeout
  {
    ClassesExactly(m);
    hide Classify, SaysAny, Says, Blank;
  }

  /** A failed candidate without an error of its own is marked as retryable, but never retried. */
  lemma SilentCandidateNeverRetried(row: Row, now: int, later: int)
    requires row.status == "pending" && row.lastError.None?
    ensures SetBack(row, CandidateFailed(None), now).status == "delivery_failed_retryable"
    ensures Decide(SetBack(row, CandidateFailed(None), now), later) != Act
  {
    var m := CANDIDATE_ERROR;
    CandidateChars();
    assert SetbackError(row.lastError, CandidateFailed(None)) == m;
    assert SetBack(row, CandidateFailed(None), now).status == "delivery_failed_retryable";
    hide *;
    CandidateFlood(m);
    CandidateAuth(m);
    CandidateUnknown(m);
    CandidateInvalid(m);
    CandidateTimeout(m);
    CandidateRate(m);
    CandidateNetwork(m);
    CandidateTemporary(m);
    SaysNothing(m);
    GivenUpRetriedExactly(row, CandidateFailed(None), now, later);
  }

  lemma SaysNothing(m: string)
    requires !Blank(m) && !SaysFlood(m) && !SaysAuth(m) && !Says(m, "unknown") && !SaysInvalid(m)
    requires !SaysTimeout(m) && !SaysRate(m) && !SaysNetwork(m) && !SaysTemporary(m)
    ensures Classify(m) == Final
  {
    ClassesExactly(m);
    hide Classify, SaysAny, Says, Blank;
  }
}
