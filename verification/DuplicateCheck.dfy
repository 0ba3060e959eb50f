/**
 The duplicate check for a candidate resource: an index over the subscription's rows,
 remembered per row list, answers what a row-by-row comparison would.  Episode parsing, title
 keys and title similarity are arbitrary functions of the texts.
 */
module DuplicateCheck {
  import opened DeliveryState
  import opened PyText
  import opened ShareLinks

  type Episodes = set<(int, int)>

  datatype Listed = Listed(title: string, url: string, status: string)

  datatype Result = Result(title: string, url: string, context: string, source: string, messageId: string,
                           priority: int)

  /** What the parsers say: the episodes a text names for a subscription, the comparison key of
      a title, whether two keys are similar enough, and the text of a result. */
  datatype Facts = Facts(
    episodes: (int, string) -> Episodes,
    titleKey: string -> string,
    similar: (string, string) -> bool,
    resultText: Result -> string)

  const INEFFECTIVE := {"delivery_failed_final", "delivery_failed_retryable", "failed", "link_invalid",
    "pending_recheck", "skipped"}

  /** `resource_status_is_effective`. */
  predicate Effective(status: string) { Lower(if status == "" then "pending" else status) !in INEFFECTIVE }

  datatype Reason = Same(kind: string) | CoveredEpisodes | SimilarTitle

  /** What is compared: key, episodes and title key of the candidate. */
  datatype Candidate = Candidate(key: Option<Key>, episodes: Episodes, titleKey: string)

  /** Episodes of an ed2k link are read off its file name only. */
  function CandidateText(f: Facts, r: Result): string {
    if Contains(Lower(r.url), "ed2k://") && r.title != "" then r.title else f.resultText(r)
  }

  function CandidateOf(f: Facts, sub: int, r: Result): Candidate {
    Candidate(DedupeKey(r.url), f.episodes(sub, CandidateText(f, r)), f.titleKey(r.title))
  }

  // ------------------------------------------------------------- row by row

  /** `_similar_title_against_key`. */
  predicate SimilarTo(f: Facts, key: string, existing: string, episodes: Episodes, existingEpisodes: Episodes) {
    key != "" && existing != "" && f.similar(key, existing) &&
    ((episodes != {} || existingEpisodes != {}) ==> episodes == existingEpisodes)
  }

  /** `_duplicate_reason_for_row`. */
  function RowReason(f: Facts, sub: int, c: Candidate, row: Listed): Option<Reason> {
    if c.key.Some? && DedupeKey(row.url) == c.key then
      (if Effective(row.status) then Some(Same(c.key.value.kind)) else None)
    else if !Effective(row.status) then None
    else
      var existing := f.episodes(sub, row.title);
      if c.episodes != {} && existing != {} && c.episodes <= existing then Some(CoveredEpisodes)
      else if SimilarTo(f, c.titleKey, f.titleKey(row.title), c.episodes, existing) then Some(SimilarTitle)
      else None
  }

  /** Some row gives this reason. */
  predicate Reported(f: Facts, sub: int, c: Candidate, rows: seq<Listed>, reason: Reason) {
    exists k :: 0 <= k < |rows| && RowReason(f, sub, c, rows[k]) == Some(reason)
  }

  /** The strongest reason any row gives: same key, then covered episodes, then similar title. */
  function Strongest(f: Facts, sub: int, c: Candidate, rows: seq<Listed>): Option<Reason> {
    if c.key.Some? && Reported(f, sub, c, rows, Same(c.key.value.kind)) then Some(Same(c.key.value.kind))
    else if Reported(f, sub, c, rows, CoveredEpisodes) then Some(CoveredEpisodes)
    else if Reported(f, sub, c, rows, SimilarTitle) then Some(SimilarTitle)
    else None
  }

  /** A row that refuses the candidate has its key, has all of its episodes, or a similar title where
      neither names an episode. */
  predicate SameKeyRow(c: Candidate, row: Listed) {
    Effective(row.status) && c.key.Some? && DedupeKey(row.url) == c.key
  }

  predicate CoveringRow(f: Facts, sub: int, c: Candidate, row: Listed) {
    Effective(row.status) && c.episodes != {} && forall e :: e in c.episodes ==> e in f.episodes(sub, row.title)
  }

  predicate AlikeRow(f: Facts, sub: int, c: Candidate, row: Listed) {
    && Effective(row.status) && c.episodes == {} && f.episodes(sub, row.title) == {}
    && c.titleKey != "" && f.titleKey(row.title) != "" && f.similar(c.titleKey, f.titleKey(row.title))
  }

  lemma RowReasonExactly(f: Facts, sub: int, c: Candidate, row: Listed)
    ensures c.key.Some? ==> (RowReason(f, sub, c, row) == Some(Same(c.key.value.kind)) <==> SameKeyRow(c, row))
    ensures RowReason(f, sub, c, row) == Some(CoveredEpisodes) <==> !SameKeyRow(c, row) && CoveringRow(f, sub, c, row)
    ensures RowReason(f, sub, c, row) == Some(SimilarTitle) <==> !SameKeyRow(c, row) && AlikeRow(f, sub, c, row)
  {
    hide DedupeKey, Effective;
    if CoveringRow(f, sub, c, row) {
      assert c.episodes <= f.episodes(sub, row.title);
      assert f.episodes(sub, row.title) != {};
    }
  }

  /** Why a candidate is refused: some effective row has its key; else some such row covers its episodes;
      else neither names an episode and some such title is similar.  So an episode that no row covers
      is never refused for its title. */
  lemma StrongestExactly(f: Facts, sub: int, c: Candidate, rows: seq<Listed>)
    ensures var same := exists k :: 0 <= k < |rows| && SameKeyRow(c, rows[k]);
            var covered := exists k :: 0 <= k < |rows| && CoveringRow(f, sub, c, rows[k]);
            var alike := exists k :: 0 <= k < |rows| && AlikeRow(f, sub, c, rows[k]);
            Strongest(f, sub, c, rows)
              == if same then Some(Same(c.key.value.kind))
                 else if covered then Some(CoveredEpisodes)
                 else if alike then Some(SimilarTitle)
                 else None
  {
    forall k | 0 <= k < |rows|
      ensures c.key.Some? ==>
                (RowReason(f, sub, c, rows[k]) == Some(Same(c.key.value.kind)) <==> SameKeyRow(c, rows[k]))
      ensures RowReason(f, sub, c, rows[k]) == Some(CoveredEpisodes) <==>
                !SameKeyRow(c, rows[k]) && CoveringRow(f, sub, c, rows[k])
      ensures RowReason(f, sub, c, rows[k]) == Some(SimilarTitle) <==>
                !SameKeyRow(c, rows[k]) && AlikeRow(f, sub, c, rows[k])
      ensures SameKeyRow(c, rows[k]) ==> c.key.Some?
    {
      RowReasonExactly(f, sub, c, rows[k]);
      hide RowReason, CoveringRow, AlikeRow;
    }
    hide RowReason, SameKeyRow, CoveringRow, AlikeRow;
  }

  /** The episodes of an ed2k link are those of its title, of any other result those of its whole text. */
  lemma EpisodesReadExactly(f: Facts, sub: int, r: Result)
    ensures CandidateOf(f, sub, r).episodes
            == f.episodes(sub, if Says(r.url, "ed2k://") && r.title != "" then r.title else f.resultText(r))
  {
    SaysContains(r.url, "ed2k://");
    hide Says, Contains, Lower, DedupeKey;
  }

  /** What a delivery leaves counts against later candidates exactly if it did not fail: delivered and new rows
      do; failed, given up, skipped and unchecked ones do not. */
  lemma WhatCounts(row: Row, message: string, why: Setback, now: int)
    ensures Effective(Recorded(row, true, message, now).status) && !Effective(Recorded(row, false, message, now).status)
    ensures Effective(Duplicated(row, now).status)
    ensures row.status == "pending" ==> Effective(row.status) && !Effective(SetBack(row, why, now).status)
    ensures row.status != DELIVERED ==> !Effective(Skipped(row, now).status)
    ensures Effective("") && !Effective("pending_recheck")
  {
    EffectiveWords();
    hide Classify, Effective;
  }

  lemma EffectiveWords()
    ensures Effective(DELIVERED) && Effective("pending") && Effective("") && !Effective("pending_recheck")
    ensures !Effective("failed") && !Effective("link_invalid") && !Effective("skipped")
    ensures !Effective("delivery_failed_final") && !Effective("delivery_failed_retryable")
  {
    CountingWords();
    IneffectiveWords();
  }

  lemma CountingWords()
    ensures Effective(DELIVERED) && Effective("pending") && Effective("")
  {
    LowerWord(DELIVERED);
    LowerWord("pending");
    hide Lower, NoCapitals;
    assert |DELIVERED| == 9 && |"pending"| == 7 && "pending"[0] != "skipped"[0];
  }

  lemma Ineffective(word: string)
    requires word in INEFFECTIVE && NoCapitals(word) && word != ""
    ensures !Effective(word)
  {
    LowerWord(word);
    hide Lower, NoCapitals, INEFFECTIVE;
  }

  lemma IneffectiveWords()
    ensures !Effective("pending_recheck") && !Effective("failed") && !Effective("link_invalid")
    ensures !Effective("skipped") && !Effective("delivery_failed_final") && !Effective("delivery_failed_retryable")
  {
    hide Effective;
    Ineffective("pending_recheck");
    Ineffective("failed");
    Ineffective("link_invalid");
    Ineffective("skipped");
    Ineffective("delivery_failed_final");
    Ineffective("delivery_failed_retryable");
  }

  lemma LowerWord(word: string)
    requires NoCapitals(word)
    ensures Lower(word) == word
  {
    assert forall i :: 0 <= i < |word| ==> Lower(word)[i] == word[i];
  }

  // -------------------------------------------------------------- the index

  datatype Index = Index(byKey: map<Key, Listed>, episodeSets: seq<Episodes>, titleEntries: seq<(string, Episodes)>)

  function Added(f: Facts, sub: int, x: Index, row: Listed): Index {
    if !Effective(row.status) then x
    else
      var key, existing, titleKey := DedupeKey(row.url), f.episodes(sub, row.title), f.titleKey(row.title);
      Index(if key.Some? && key.value !in x.byKey then x.byKey[key.value := row] else x.byKey,
            if existing != {} then x.episodeSets + [existing] else x.episodeSets,
            if titleKey != "" then x.titleEntries + [(titleKey, existing)] else x.titleEntries)
  }

  function IndexOf(f: Facts, sub: int, rows: seq<Listed>): Index {
    if rows == [] then Index(map[], [], [])
    else Added(f, sub, IndexOf(f, sub, rows[..|rows| - 1]), rows[|rows| - 1])
  }

  predicate CoveredBy(x: Index, c: Candidate) {
    c.episodes != {} && exists k :: 0 <= k < |x.episodeSets| && c.episodes <= x.episodeSets[k]
  }

  predicate SimilarIn(f: Facts, x: Index, c: Candidate) {
    exists k :: 0 <= k < |x.titleEntries| &&
      SimilarTo(f, c.titleKey, x.titleEntries[k].0, c.episodes, x.titleEntries[k].1)
  }

  /** The check of `resource_already_exists` against an index. */
  function IndexReason(f: Facts, x: Index, c: Candidate): Option<Reason> {
    if c.key.Some? && c.key.value in x.byKey then Some(Same(c.key.value.kind))
    else if CoveredBy(x, c) then Some(CoveredEpisodes)
    else if SimilarIn(f, x, c) then Some(SimilarTitle)
    else None
  }

  // What makes a single row count for each of the three parts.

  predicate KeyRow(c: Candidate, row: Listed) { c.key.Some? && Effective(row.status) && DedupeKey(row.url) == c.key }

  predicate CoverRow(f: Facts, sub: int, c: Candidate, row: Listed) {
    Effective(row.status) && c.episodes != {} && c.episodes <= f.episodes(sub, row.title)
  }

  predicate SimilarRow(f: Facts, sub: int, c: Candidate, row: Listed) {
    Effective(row.status) && SimilarTo(f, c.titleKey, f.titleKey(row.title), c.episodes, f.episodes(sub, row.title))
  }

  predicate KeyIn(x: Index, c: Candidate) { c.key.Some? && c.key.value in x.byKey }

  lemma AddedSees(f: Facts, sub: int, c: Candidate, x: Index, row: Listed)
    ensures KeyIn(Added(f, sub, x, row), c) <==> KeyIn(x, c) || KeyRow(c, row)
    ensures CoveredBy(Added(f, sub, x, row), c) <==> CoveredBy(x, c) || CoverRow(f, sub, c, row)
    ensures SimilarIn(f, Added(f, sub, x, row), c) <==> SimilarIn(f, x, c) || SimilarRow(f, sub, c, row)
  {
    hide DedupeKey, Effective;
    var y := Added(f, sub, x, row);
    CoveredAdded(x, y, c, f.episodes(sub, row.title), Effective(row.status) && f.episodes(sub, row.title) != {});
    SimilarAdded(f, x, y, c, (f.titleKey(row.title), f.episodes(sub, row.title)),
                 Effective(row.status) && f.titleKey(row.title) != "");
  }

  lemma CoveredAdded(x: Index, y: Index, c: Candidate, e: Episodes, added: bool)
    requires y.episodeSets == if added then x.episodeSets + [e] else x.episodeSets
    ensures CoveredBy(y, c) <==> CoveredBy(x, c) || (added && c.episodes != {} && c.episodes <= e)
  {
    if added {
      assert y.episodeSets[|x.episodeSets|] == e;
      assert forall k :: 0 <= k < |x.episodeSets| ==> y.episodeSets[k] == x.episodeSets[k];
    }
  }

  lemma SimilarAdded(f: Facts, x: Index, y: Index, c: Candidate, e: (string, Episodes), added: bool)
    requires y.titleEntries == if added then x.titleEntries + [e] else x.titleEntries
    ensures SimilarIn(f, y, c) <==> SimilarIn(f, x, c) || (added && SimilarTo(f, c.titleKey, e.0, c.episodes, e.1))
  {
    if added {
      assert y.titleEntries[|x.titleEntries|] == e;
      assert forall k :: 0 <= k < |x.titleEntries| ==> y.titleEntries[k] == x.titleEntries[k];
    }
  }

  ghost predicate AnyRow(p: Listed -> bool, rows: seq<Listed>) { exists k :: 0 <= k < |rows| && p(rows[k]) }

  lemma AnyRowLast(p: Listed -> bool, rows: seq<Listed>)
    requires rows != []
    ensures AnyRow(p, rows) <==> AnyRow(p, rows[..|rows| - 1]) || p(rows[|rows| - 1])
  {
    var init := rows[..|rows| - 1];
    assert forall k :: 0 <= k < |init| ==> init[k] == rows[k];
  }

  /** The three parts of the index see exactly what the effective rows have. */
  lemma {:induction false} IndexSees(f: Facts, sub: int, c: Candidate, rows: seq<Listed>)
    ensures KeyIn(IndexOf(f, sub, rows), c) <==> AnyRow(row => KeyRow(c, row), rows)
    ensures CoveredBy(IndexOf(f, sub, rows), c) <==> AnyRow(row => CoverRow(f, sub, c, row), rows)
    ensures SimilarIn(f, IndexOf(f, sub, rows), c) <==> AnyRow(row => SimilarRow(f, sub, c, row), rows)
    decreases |rows|
  {
    hide Added, KeyRow, CoverRow, SimilarRow;
    if rows != [] {
      var init := rows[..|rows| - 1];
      IndexSees(f, sub, c, init);
      AddedSees(f, sub, c, IndexOf(f, sub, init), rows[|rows| - 1]);
      AnyRowLast(row => KeyRow(c, row), rows);
      AnyRowLast(row => CoverRow(f, sub, c, row), rows);
      AnyRowLast(row => SimilarRow(f, sub, c, row), rows);
    }
  }

  /** The index answers what the rows answer one by one, with the strongest reason first. */
  lemma IndexExact(f: Facts, sub: int, c: Candidate, rows: seq<Listed>)
    ensures IndexReason(f, IndexOf(f, sub, rows), c) == Strongest(f, sub, c, rows)
  {
    IndexSees(f, sub, c, rows);
    hide IndexOf, DedupeKey, Effective, CoveredBy, SimilarIn, SimilarTo;
    var anyKey, anyCover := AnyRow(row => KeyRow(c, row), rows), AnyRow(row => CoverRow(f, sub, c, row), rows);
    if c.key.Some? {
      assert Reported(f, sub, c, rows, Same(c.key.value.kind)) <==> anyKey;
    }
    if !anyKey {
      assert Reported(f, sub, c, rows, CoveredEpisodes) <==> anyCover;
      if !anyCover {
        assert Reported(f, sub, c, rows, SimilarTitle) <==> AnyRow(row => SimilarRow(f, sub, c, row), rows);
      }
    }
  }

  // ---------------------------------------------------------------- the memo

  /** A row list, known by its identity; rows are only ever put in front. */
  class RowList {
    var rows: seq<Listed>

    constructor (rows: seq<Listed>)
      ensures this.rows == rows
    {
      this.rows := rows;
    }

    method Prepend(row: Listed)
      modifies this
      ensures rows == [row] + old(rows)
    {
      rows := [row] + rows;
    }
  }

  /** `_rows_memo_token`: the subscription, the length, the outer rows. */
  datatype Token = Token(sub: int, length: nat, outer: Option<(Listed, Listed)>)

  function TokenOf(sub: int, rows: seq<Listed>): Token {
    Token(sub, |rows|, if rows == [] then None else Some((rows[0], rows[|rows| - 1])))
  }

  const MEMO_MAX := 64

  /** An entry indexes the last rows of its list, as many as the list had when it was made. */
  predicate EntryOk(f: Facts, rows: seq<Listed>, e: (Token, Index)) {
    e.0.length <= |rows| && e.1 == IndexOf(f, e.0.sub, rows[|rows| - e.0.length..])
  }

  lemma EntryPrepend(f: Facts, rows: seq<Listed>, row: Listed, e: (Token, Index))
    requires EntryOk(f, rows, e)
    ensures EntryOk(f, [row] + rows, e)
  {
    hide IndexOf;
    var n := e.0.length;
    assert ([row] + rows)[|rows| + 1 - n..] == rows[|rows| - n..];
  }

  lemma EntryFull(f: Facts, sub: int, rows: seq<Listed>, e: (Token, Index))
    requires e.0.sub == sub && e.0.length == |rows|
    ensures EntryOk(f, rows, e) <==> e.1 == IndexOf(f, sub, rows)
  {
    hide IndexOf;
    assert rows[0..] == rows;
  }

  /** `_ROW_INDEX_MEMO`, with its keys in insertion order. */
  class Checker {
    const facts: Facts
    var memo: map<RowList, (Token, Index)>
    var order: seq<RowList>

    /** Every entry indexes the rows its list had when it was made: those now at its end. */
    ghost predicate Valid()
      reads this, memo.Keys
    {
      && (forall l :: l in memo ==> l in order) && (forall l :: l in order ==> l in memo)
      && (forall i, j :: 0 <= i < j < |order| ==> order[i] != order[j])
      && |order| <= MEMO_MAX
      && (forall l :: l in memo ==> EntryOk(facts, l.rows, memo[l]))
    }

    constructor (facts: Facts)
      ensures Valid() && this.facts == facts && memo == map[]
    {
      this.facts := facts;
      memo, order := map[], [];
    }

    /** `_build_resource_row_index`. */
    method BuildIndex(rows: seq<Listed>, sub: int) returns (x: Index)
      ensures x == IndexOf(facts, sub, rows)
    {
      hide Added;
      x := Index(map[], [], []);
      assert rows[..0] == [];
      for i := 0 to |rows|
        invariant x == IndexOf(facts, sub, rows[..i])
      {
        assert rows[..i + 1][..i] == rows[..i];
        x := Added(facts, sub, x, rows[i]);
      }
      assert rows[..|rows|] == rows;
    }

    /** `_memo_resource_row_index`. */
    method MemoIndex(list: RowList, sub: int) returns (x: Index)
      requires Valid()
      modifies this
      ensures Valid() && |order| <= 64 && x == IndexOf(facts, sub, list.rows)
    {
      hide IndexOf, EntryOk;
      var token := TokenOf(sub, list.rows);
      if list in memo && memo[list].0 == token {
        EntryFull(facts, sub, list.rows, memo[list]);
        return memo[list].1;
      }
      x := BuildIndex(list.rows, sub);
      if |order| >= MEMO_MAX {
        DropOldest();
      }
      EntryFull(facts, sub, list.rows, (token, x));
      Remember(list, (token, x));
    }

    method DropOldest()
      requires Valid() && order != []
      modifies this
      ensures Valid() && |order| == |old(order)| - 1
    {
      hide EntryOk;
      memo, order := memo - {order[0]}, order[1..];
    }

    method Remember(list: RowList, e: (Token, Index))
      requires Valid() && |order| < MEMO_MAX && EntryOk(facts, list.rows, e)
      modifies this
      ensures Valid() && list in memo && memo[list] == e
    {
      hide EntryOk;
      if list !in memo {
        order := order + [list];
      }
      memo := memo[list := e];
    }

    /** `resource_already_exists`: whatever the memo holds, it reports the strongest reason any
        current row gives. */
    method ResourceAlreadyExists(list: RowList, sub: int, r: Result) returns (reason: Option<Reason>)
      requires Valid()
      modifies this
      ensures Valid() && reason == Strongest(facts, sub, CandidateOf(facts, sub, r), list.rows)
    {
      var x := MemoIndex(list, sub);
      var c := CandidateOf(facts, sub, r);
      IndexExact(facts, sub, c, list.rows);
      reason := IndexReason(facts, x, c);
    }

    /** Putting a row in front of any list leaves every memo entry right. */
    method InsertRow(list: RowList, row: Listed)
      requires Valid()
      modifies list
      ensures Valid() && list.rows == [row] + old(list.rows)
    {
      hide EntryOk;
      ghost var was := list.rows;
      if list in memo {
        EntryPrepend(facts, was, row, memo[list]);
      }
      list.Prepend(row);
    }
  }
}
