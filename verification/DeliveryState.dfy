/** Rows of the `resources` table as delivery sees them, and the updates it makes to them. */
module DeliveryState {
  import opened IntSets
  import opened PyText
  import opened ShareLinks

  /** `lastError` is None for NULL; `updatedAt` is the time stamp of the last write. */
  datatype Row = Row(url: string, status: string, retryCount: nat, lastError: Option<string>, updatedAt: int)

  type Table = map<int, Row>

  const DELIVERED := "delivered"

  /** `str(status).casefold() == "delivered"`, on ASCII letters. */
  predicate FoldsToDelivered(status: string) { Lower(status) == DELIVERED }

  // ------------------------------------------------------ failure classes

  datatype FailureKind = Auth | Flood | Invalid | Timeout | Network | Rate | Temporary | Final

  predicate WordAt(text: string, i: nat, word: string) {
    i + |word| <= |text| && text[i..i + |word|] == word
  }

  predicate Contains(text: string, word: string) {
    exists i | 0 <= i <= |text| :: WordAt(text, i, word)
  }

  predicate ContainsAny(text: string, words: seq<string>) {
    exists w | w in words :: Contains(text, w)
  }

  const FLOOD_WORDS := ["flood", "floodwait", "too many requests", "slowmode", "peer flood"]
  const AUTH_WORDS := ["cookie", "auth_required", "\U{672A}\U{914D}\U{7F6E}", "\U{8BF7}\U{5148}\U{767B}\U{5F55}",
    "login required", "unauthorized", "401", "403"]
  const INVALID_WORDS := ["\U{683C}\U{5F0F}\U{65E0}\U{6548}", "\U{94FE}\U{63A5}\U{4E3A}\U{7A7A}", "\U{5931}\U{6548}",
    "\U{4E0D}\U{53EF}\U{7528}", "invalid", "unavailable", "password_error", "not_found", "expired", "cancelled",
    "\U{5DF2}\U{5931}\U{6548}", "\U{5206}\U{4EAB}\U{94FE}\U{63A5}\U{5DF2}\U{5931}\U{6548}"]
  const TIMEOUT_WORDS := ["timeout", "timed out", "time out", "\U{8D85}\U{65F6}"]
  const RATE_WORDS := ["rate_limited", "rate limit", "429", "\U{9650}\U{6D41}"]
  const NETWORK_WORDS := ["network", "connection", "proxy", "tls", "ssl"]
  const TEMPORARY_WORDS := ["temporar", "500", "502", "503", "504", "busy", "locked"]

  /** `classify_delivery_failure`. */
  function Classify(message: string): FailureKind {
    var text := Lower(message);
    if Strip(text) == "" then Temporary
    else if ContainsAny(text, FLOOD_WORDS) then Flood
    else if ContainsAny(text, AUTH_WORDS) then Auth
    else if Contains(text, "unknown") then Temporary
    else if ContainsAny(text, INVALID_WORDS) then Invalid
    else if ContainsAny(text, TIMEOUT_WORDS) then Timeout
    else if ContainsAny(text, RATE_WORDS) then Rate
    else if ContainsAny(text, NETWORK_WORDS) then Network
    else if ContainsAny(text, TEMPORARY_WORDS) then Temporary
    else Final
  }

  /** `delivery_failed_status`. */
  function FailedStatus(message: string): string {
    match Classify(message)
    case Invalid => "link_invalid"
    case Final => "delivery_failed_final"
    case _ => "delivery_failed_retryable"
  }

  // ------------------------------------------------------- row updates

  function Truncated(message: string): string { if |message| > 500 then message[..500] else message }

  /** `_update_resource_delivery_status` on one row. */
  function Recorded(row: Row, ok: bool, message: string, now: int): Row {
    if ok then row.(status := DELIVERED, retryCount := 0, lastError := None, updatedAt := now)
    else row.(status := FailedStatus(message), retryCount := row.retryCount + 1,
              lastError := Some(Truncated(message)), updatedAt := now)
  }

  /** `_mark_resource_duplicate_delivered` on one row. */
  function Duplicated(row: Row, now: int): Row {
    row.(status := DELIVERED, lastError := None, updatedAt := now)
  }

  const SKIP_ERROR :=
    "\U{8D44}\U{6E90}\U{4E0D}\U{5728}\U{8BA2}\U{9605}\U{7F3A}\U{5931}\U{8303}\U{56F4}\U{5185}\U{FF0C}" +
    "\U{5DF2}\U{8DF3}\U{8FC7}\U{6295}\U{9012}"

  /** `_mark_unneeded_resource_skipped` on one row: the update is guarded by the exact status. */
  function Skipped(row: Row, now: int): Row {
    if row.status == DELIVERED then row
    else row.(status := "skipped", lastError := Some(SKIP_ERROR), updatedAt := now)
  }

  /** Why a pending row is given up outside the protocol: its delivery returned false or raised,
      it hung, or a fallback candidate failed. */
  datatype Setback = Undelivered(error: string) | Stuck | CandidateFailed(own: Option<string>)

  const STUCK_ERROR :=
    "\U{8D44}\U{6E90}\U{6295}\U{9012}\U{5361}\U{4F4F}\U{FF08}pending \U{8D85}\U{65F6}\U{FF09}\U{FF0C}" +
    "\U{5DF2}\U{6807}\U{8BB0}\U{4E3A}\U{5931}\U{8D25}\U{7B49}\U{5F85}\U{91CD}\U{8BD5}"
  const CANDIDATE_ERROR :=
    "\U{78C1}\U{529B}\U{6295}\U{9012}\U{5931}\U{8D25}\U{FF0C}\U{81EA}\U{52A8}\U{5C1D}\U{8BD5}\U{4E0B}" +
    "\U{4E00}\U{5019}\U{9009}"

  /** The error a row shows after it is given up: an earlier one survives the first kind, and a
      candidate's own error goes before it. */
  function SetbackError(earlier: Option<string>, why: Setback): string {
    match why
    case Undelivered(error) => if earlier.Some? then earlier.value else Truncated(error)
    case Stuck => STUCK_ERROR
    case CandidateFailed(own) =>
      if own.Some? then own.value else if earlier.Some? then earlier.value else CANDIDATE_ERROR
  }

  /** The guarded updates outside the protocol, on one row. */
  function SetBack(row: Row, why: Setback, now: int): Row {
    if row.status != "pending" then row
    else
      row.(status := if why.CandidateFailed? then "delivery_failed_retryable" else "failed",
           lastError := Some(SetbackError(row.lastError, why)), updatedAt := now)
  }

  // --------------------------------------------------- delivered twins

  /** Other rows that are delivered under the same key. */
  function Twins(t: Table, id: int, key: Key): set<int> {
    set j | j in t && j != id && t[j].status == DELIVERED && DedupeKey(t[j].url) == Some(key)
  }

  /** Other delivered rows whose URL is, character for character, `value`. */
  function ExactTwins(t: Table, id: int, value: string): set<int> {
    set j | j in t && j != id && t[j].status == DELIVERED && t[j].url == value
  }

  /** `_existing_effective_delivery`: an exact-URL query first, then a scan of all delivered rows. */
  function ExistingDelivery(t: Table, id: int, url: string): Option<int> {
    match DedupeKey(url)
    case None => None
    case Some(key) =>
      if key.kind != "magnet" && key.value != "" && ExactTwins(t, id, key.value) != {} then
        Some(Lowest(ExactTwins(t, id, key.value)))
      else if Twins(t, id, key) != {} then Some(Lowest(Twins(t, id, key)))
      else None
  }

  /** The exact-URL query never disagrees with the full scan on whether a twin exists, and
      whatever either of them returns is a delivered twin. */
  lemma FastPathAgrees(t: Table, id: int, url: string)
    ensures DedupeKey(url).None? ==> ExistingDelivery(t, id, url).None?
    ensures DedupeKey(url).Some? ==>
              var found, twins := ExistingDelivery(t, id, url), Twins(t, id, DedupeKey(url).value);
              (found.Some? <==> twins != {}) && (found.Some? ==> found.value in twins)
  {
    KeyOfValue(url);
    hide DedupeKey;
    if DedupeKey(url).Some? && DedupeKey(url).value.kind != "magnet" {
      var key := DedupeKey(url).value;
      assert ExactTwins(t, id, key.value) <= Twins(t, id, key);
    }
  }

  // ------------------------------------------------------ what a text says

  /** `d` is the lower case of `c`. */
  predicate Lowers(c: char, d: char) { c == d || ('A' <= c <= 'Z' && d as int == c as int + 32) }

  predicate SaysAt(message: string, i: nat, word: string) {
    i + |word| <= |message| && forall j {:trigger word[j]} :: 0 <= j < |word| ==> Lowers(message[i + j], word[j])
  }

  /** The message has this word, in any letter case. */
  predicate Says(message: string, word: string) { exists i | 0 <= i <= |message| :: SaysAt(message, i, word) }

  predicate SaysAny(message: string, words: seq<string>) { exists w | w in words :: Says(message, w) }

  predicate NoCapitals(word: string) { forall j :: 0 <= j < |word| ==> !('A' <= word[j] <= 'Z') }

  lemma SaysContains(message: string, word: string)
    requires NoCapitals(word)
    ensures Contains(Lower(message), word) <==> Says(message, word)
  {
    var text := Lower(message);
    forall i | 0 <= i <= |message| ensures WordAt(text, i, word) <==> SaysAt(message, i, word) {
      if i + |word| <= |message| {
        var part := text[i..i + |word|];
        assert forall j {:trigger part[j]} :: 0 <= j < |word| ==> part[j] == AsciiLower(message[i + j]);
        if SaysAt(message, i, word) {
          assert part == word;
        }
        if WordAt(text, i, word) {
          assert forall j {:trigger word[j]} :: 0 <= j < |word| ==> part[j] == word[j];
        }
      }
    }
    hide WordAt, SaysAt, Lower;
  }

  lemma SaysContainsAny(message: string, words: seq<string>)
    requires forall w :: w in words ==> NoCapitals(w)
    ensures ContainsAny(Lower(message), words) <==> SaysAny(message, words)
  {
    hide Contains, Says, Lower, NoCapitals;
    forall w | w in words ensures Contains(Lower(message), w) <==> Says(message, w) { SaysContains(message, w); }
  }

  /** A word within a word is said with it. */
  lemma SaysPart(message: string, word: string, k: nat, part: string)
    requires k + |part| <= |word| && word[k..k + |part|] == part && Says(message, word)
    ensures Says(message, part)
  {
    var i :| 0 <= i <= |message| && SaysAt(message, i, word);
    forall j | 0 <= j < |part| ensures Lowers(message[i + k + j], part[j]) {
      assert part[j] == word[k..k + |part|][j] == word[k + j];
    }
    assert SaysAt(message, i + k, part);
  }

  // ---------------------------------------- classification and truncation

  lemma ContainsPrefix(text: string, n: nat, word: string)
    requires n <= |text| && Contains(text[..n], word)
    ensures Contains(text, word)
  {
    var t := text[..n];
    var i :| 0 <= i <= |t| && WordAt(t, i, word);
    assert text[i..i + |word|] == t[i..i + |word|];
    assert WordAt(text, i, word);
  }

  lemma ContainsAnyPrefix(text: string, n: nat, words: seq<string>)
    requires n <= |text| && ContainsAny(text[..n], words)
    ensures ContainsAny(text, words)
  {
    var w :| w in words && Contains(text[..n], w);
    ContainsPrefix(text, n, w);
  }

  lemma LowerPrefix(message: string, n: nat)
    requires n <= |message|
    ensures |Lower(message)| == |message| && Lower(message[..n]) == Lower(message)[..n]
  {
  }

  /** No class of words is found in a cut text that is not in the whole. */
  lemma FinalPrefix(message: string, n: nat)
    requires n <= |message| && Classify(message) == Final
    ensures Classify(message[..n]) == if Strip(Lower(message[..n])) == "" then Temporary else Final
  {
    hide ContainsAny, Contains, Strip, Lower;
    LowerPrefix(message, n);
    var text := Lower(message);
    if Contains(text[..n], "unknown") {
      ContainsPrefix(text, n, "unknown");
    }
    forall words | ContainsAny(text[..n], words) ensures ContainsAny(text, words) {
      ContainsAnyPrefix(text, n, words);
    }
  }

  function Blanks(n: nat): (r: string)
    ensures |r| == n && forall c :: c in r ==> c == ' '
  {
    if n == 0 then "" else " " + Blanks(n - 1)
  }

  /** A word that starts with another character does not occur in blanks and x. */
  lemma NotAmongBlanks(text: string, w: string)
    requires forall c :: c in text ==> c == ' ' || c == 'x'
    requires w != "" && w[0] != ' ' && w[0] != 'x'
    ensures !Contains(text, w)
  {
    forall i | 0 <= i <= |text| ensures !WordAt(text, i, w) {
      if i + |w| <= |text| {
        assert text[i] in text && text[i..i + |w|][0] == text[i];
      }
    }
  }

  lemma NoneAmongBlanks(text: string, words: seq<string>)
    requires forall c :: c in text ==> c == ' ' || c == 'x'
    requires forall w :: w in words ==> w != "" && w[0] != ' ' && w[0] != 'x'
    ensures !ContainsAny(text, words)
  {
    hide Contains;
    forall w | w in words ensures !Contains(text, w) { NotAmongBlanks(text, w); }
  }

  lemma {:induction false} BlanksStrip(n: nat)
    ensures Strip(Blanks(n)) == "" && Strip(Blanks(n) + "x") != ""
  {
    BlanksRStrip(n);
    assert RStrip(Blanks(n) + "x") == Blanks(n) + "x";
    KeepsX(n);
  }

  lemma {:induction false} KeepsX(n: nat)
    ensures LStrip(Blanks(n) + "x") != ""
  {
    var s := Blanks(n) + "x";
    assert IsSpace(' ') && !IsSpace('x');
    hide IsSpace;
    if n > 0 {
      assert s == " " + (Blanks(n - 1) + "x") && s[1..] == Blanks(n - 1) + "x";
      hide Blanks;
      KeepsX(n - 1);
    }
  }

  lemma {:induction false} BlanksRStrip(n: nat)
    ensures RStrip(Blanks(n)) == ""
  {
    if n > 0 {
      var s := Blanks(n);
      assert s[n - 1] in s;
      BlanksAgain(n);
      BlanksRStrip(n - 1);
    }
  }

  lemma {:induction false} BlanksAgain(n: nat)
    requires n > 0
    ensures Blanks(n)[..n - 1] == Blanks(n - 1)
  {
    if n > 1 {
      BlanksAgain(n - 1);
      assert Blanks(n)[..n - 1] == " " + Blanks(n - 1)[..n - 2];
    }
  }

  lemma LowerPlain(text: string)
    requires forall c :: c in text ==> c == ' ' || c == 'x'
    ensures Lower(text) == text
  {
    forall i | 0 <= i < |text| ensures AsciiLower(text[i]) == text[i] { assert text[i] in text; }
  }

  lemma BlankIsFinal(message: string, blanks: string)
    requires (forall c :: c in message ==> c == ' ' || c == 'x') && (forall c :: c in blanks ==> c == ' ')
    requires Truncated(message) == blanks && Strip(blanks) == "" && Strip(message) != ""
    ensures Classify(message) == Final && Strip(Lower(Truncated(message))) == ""
  {
    hide *;
    LowerPlain(message);
    LowerPlain(blanks);
    PlainIsFinal(message);
  }

  lemma BlanksCut(blanks: string)
    requires |blanks| == 500
    ensures Truncated(blanks + "x") == blanks
  {
    assert (blanks + "x")[..500] == blanks;
  }

  lemma BlanksAreFinal(n: nat)
    requires n == 500
    ensures var message := Blanks(n) + "x";
            Classify(message) == Final && Strip(Lower(Truncated(message))) == ""
  {
    BlanksStrip(n);
    var blanks := Blanks(n);
    hide *;
    BlanksCut(blanks);
    BlankIsFinal(blanks + "x", blanks);
  }

  /** A final error whose stored part is blank: 500 blanks before anything else. */
  lemma BlankFinalExists()
    ensures var message := Blanks(500) + "x";
            Classify(message) == Final && Strip(Lower(Truncated(message))) == ""
  {
    hide *;
    BlanksAreFinal(500);
  }

  lemma PlainIsFinal(message: string)
    requires (forall c :: c in message ==> c == ' ' || c == 'x') && Lower(message) == message && Strip(message) != ""
    ensures Classify(message) == Final
  {
    NoWords(message);
    hide Lower, Strip, ContainsAny, Contains;
    hide FLOOD_WORDS, AUTH_WORDS, INVALID_WORDS, TIMEOUT_WORDS, RATE_WORDS, NETWORK_WORDS, TEMPORARY_WORDS;
  }

  lemma NoWords(text: string)
    requires forall c :: c in text ==> c == ' ' || c == 'x'
    ensures !ContainsAny(text, FLOOD_WORDS) && !ContainsAny(text, AUTH_WORDS) && !Contains(text, "unknown")
    ensures !ContainsAny(text, INVALID_WORDS) && !ContainsAny(text, TIMEOUT_WORDS) && !ContainsAny(text, RATE_WORDS)
    ensures !ContainsAny(text, NETWORK_WORDS) && !ContainsAny(text, TEMPORARY_WORDS)
  {
    hide ContainsAny, Contains;
    NoneAmongBlanks(text, FLOOD_WORDS);
    NoneAmongBlanks(text, AUTH_WORDS);
    NotAmongBlanks(text, "unknown");
    NoneAmongBlanks(text, INVALID_WORDS);
    NoneAmongBlanks(text, TIMEOUT_WORDS);
    NoneAmongBlanks(text, RATE_WORDS);
    NoneAmongBlanks(text, NETWORK_WORDS);
    NoneAmongBlanks(text, TEMPORARY_WORDS);
  }

  /** Storing only 500 characters of a final error leaves it final, unless those are all blank:
      then it reads as temporary. */
  lemma FinalSurvivesTruncation(message: string)
    requires Classify(message) == Final
    ensures Classify(Truncated(message)) == if Strip(Lower(Truncated(message))) == "" then Temporary else Final
  {
    hide Classify, Strip, Lower;
    FinalPrefix(message, |Truncated(message)|);
    assert message[..|message|] == message;
  }
}
