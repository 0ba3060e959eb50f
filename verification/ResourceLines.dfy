/** Which rows share a line of the merged listing, told in the columns of the rows. */
module ResourceLines {
  import opened PyText
  import opened EpisodeKeys
  import opened ResourceGroups

  /** One subscription and one link; a row without a link key is alone. */
  predicate OneLink(a: Row, b: Row) { a == b || (a.sub == b.sub && a.link.Some? && a.link == b.link) }

  /** The best row of a's link, by status and then by id. */
  ghost predicate TopOf(rows: seq<Row>, a: Row, p: Row) {
    p in rows && OneLink(a, p) && forall m :: m in rows && OneLink(a, m) ==> AtLeast(p, m)
  }

  /** One subscription, both delivered or both pending, and the same episodes, of which there are some. */
  predicate OneOffer(p: Row, q: Row) {
    && p.sub == q.sub && p.sub != 0 && p.status == q.status && (p.status == "delivered" || p.status == "pending")
    && p.episodes == q.episodes && p.episodes != {}
  }

  /** Two rows belong together: one link, or links whose best rows make one offer. */
  ghost predicate Together(rows: seq<Row>, a: Row, b: Row) {
    OneLink(a, b) || exists p, q :: TopOf(rows, a, p) && TopOf(rows, b, q) && OneOffer(p, q)
  }

  /** The statuses by rank, from the best; any other comes last. */
  lemma RankOrder(status: string)
    ensures Rank("delivered") > Rank("pending") > Rank("pending_recheck") > Rank("delivery_failed_retryable")
    ensures Rank("delivery_failed_retryable") > Rank("failed") > Rank("delivery_failed_final")
    ensures Rank("delivery_failed_final") > Rank("link_invalid") > Rank("skipped") > Rank("matched_not_needed")
    ensures status !in ["delivered", "pending", "pending_recheck", "delivery_failed_retryable", "failed",
                        "delivery_failed_final", "link_invalid", "skipped", "matched_not_needed"] ==>
              Rank(status) < Rank("matched_not_needed")
  {
    assert |"delivered"| == 9 && |"pending"| == 7 && |"pending_recheck"| == 15 && |"failed"| == 6;
    assert |"delivery_failed_retryable"| == 25 && |"delivery_failed_final"| == 21 && |"link_invalid"| == 12;
    assert |"skipped"| == 7 && |"matched_not_needed"| == 18 && "pending"[0] != "skipped"[0];
  }

  lemma HashKeyExactly(rows: seq<Row>, a: Row, b: Row)
    requires DistinctIds(rows) && a in rows && b in rows
    ensures HashKey(a) == HashKey(b) <==> OneLink(a, b)
  {
    if a.id == b.id { SameId(rows, a, b); }
  }

  lemma SecondKeyExactly(rows: seq<Row>, p: Row, q: Row)
    requires DistinctIds(rows) && p in rows && q in rows
    ensures SecondKey(p) == SecondKey(q) <==> p == q || OneOffer(p, q)
  {
    if p.id == q.id { SameId(rows, p, q); }
  }

  /** The row that the hash group of `a` shows is the best of its link. */
  lemma ShownTop(rows: seq<Row>, a: Row) returns (p: Row)
    requires DistinctIds(rows) && a in rows
    ensures TopOf(rows, a, p) && FinalKey(rows, a) == SecondKey(p)
  {
    HashGroupsShow(rows);
    var i := GroupIndex(rows, a);
    var g := HashGroups(rows)[i].group;
    var m := RowsWith(rows, HashKey(a));
    assert Shows(g, m) && FinalKey(rows, a) == SecondKey(g.row);
    p := ShownIn(g, m);
    forall r | r in rows ensures r in m <==> OneLink(a, r) { HashKeyExactly(rows, a, r); }
  }

  lemma ShownIn(g: Group, m: set<Row>) returns (p: Row)
    requires Shows(g, m)
    ensures p in m && SecondKey(p) == SecondKey(g.row) && forall r :: r in m ==> AtLeast(p, r)
  {
    p :| p in m && SameRow(g.row, p) && ErrorFrom(g.row, p, m);
  }

  lemma OneTop(rows: seq<Row>, a: Row, p: Row, q: Row)
    requires DistinctIds(rows) && TopOf(rows, a, p) && TopOf(rows, a, q)
    ensures p == q
  {
    assert AtLeast(p, q) && AtLeast(q, p);
    SameId(rows, p, q);
  }

  lemma OneLinkTop(rows: seq<Row>, a: Row, b: Row, p: Row)
    requires a in rows && b in rows && OneLink(a, b)
    ensures TopOf(rows, a, p) <==> TopOf(rows, b, p)
  {
    forall m | m in rows ensures OneLink(a, m) <==> OneLink(b, m) {}
  }

  /** Rows share a class of the listing exactly if they belong together. */
  lemma SharesLineExactly(rows: seq<Row>, a: Row, b: Row)
    requires DistinctIds(rows) && a in rows && b in rows
    ensures FinalKey(rows, a) == FinalKey(rows, b) <==> Together(rows, a, b)
  {
    var p := ShownTop(rows, a);
    var q := ShownTop(rows, b);
    SecondKeyExactly(rows, p, q);
    hide FinalKey, SecondKey;
    if OneLink(a, b) {
      OneLinkTop(rows, a, b, p);
      OneTop(rows, b, p, q);
    } else if p == q {
      SharedTop(rows, a, b, p);
    }
    forall r, s | TopOf(rows, a, r) && TopOf(rows, b, s) ensures r == p && s == q {
      OneTop(rows, a, r, p);
      OneTop(rows, b, s, q);
    }
  }

  lemma SharedTop(rows: seq<Row>, a: Row, b: Row, p: Row)
    requires TopOf(rows, a, p) && TopOf(rows, b, p)
    ensures OneLink(a, b)
  {
  }

  /** The rows that belong together with `a`. */
  ghost function Partners(rows: seq<Row>, a: Row): set<Row> { set x | x in rows && Together(rows, a, x) }

  lemma ClassIsPartners(rows: seq<Row>, a: Row)
    requires DistinctIds(rows) && a in rows
    ensures Class(rows, FinalKey(rows, a)) == Partners(rows, a)
  {
    forall x | x in rows ensures FinalKey(rows, x) == FinalKey(rows, a) <==> Together(rows, a, x) {
      SharesLineExactly(rows, a, x);
    }
    hide FinalKey, Together;
  }

  /** Every line shows the rows that belong together with some row: the best of them, with ids and
      episodes of theirs only. */
  lemma LinesShowPartners(rows: seq<Row>, i: nat) returns (a: Row)
    requires DistinctIds(rows) && i < |Merged(rows)|
    ensures a in rows && Shows(Merged(rows)[i].group, Partners(rows, a))
  {
    MergedShows(rows);
    MergedOrder(rows);
    hide Merged, Shows, FinalKey;
    var key := Keys(Merged(rows))[i];
    assert key in FirstSeen(FinalKeys(rows, rows));
    var j :| 0 <= j < |rows| && FinalKeys(rows, rows)[j] == key;
    a := rows[j];
    ClassIsPartners(rows, a);
  }

  lemma KeyListed(rows: seq<Row>, a: Row)
    requires a in rows
    ensures FinalKey(rows, a) in FirstSeen(FinalKeys(rows, rows))
  {
    hide FinalKey;
    var k :| 0 <= k < |rows| && rows[k] == a;
    assert FinalKeys(rows, rows)[k] == FinalKey(rows, a);
  }

  lemma SlotOf(slots: seq<Slot>, key: Key) returns (i: nat)
    requires key in Keys(slots) && DistinctKeys(slots)
    ensures i < |slots| && slots[i].key == key && forall j :: 0 <= j < |slots| && j != i ==> slots[j].key != key
  {
    i :| 0 <= i < |slots| && Keys(slots)[i] == key;
  }

  lemma LineOf(rows: seq<Row>, a: Row) returns (i: nat)
    requires DistinctIds(rows) && a in rows
    ensures i < |Merged(rows)| && Merged(rows)[i].key == FinalKey(rows, a)
    ensures forall j :: 0 <= j < |Merged(rows)| && j != i ==> Merged(rows)[j].key != FinalKey(rows, a)
  {
    hide *;
    MergedOrder(rows);
    KeyListed(rows, a);
    KeysDistinct(Merged(rows), FinalKeys(rows, rows));
    i := SlotOf(Merged(rows), FinalKey(rows, a));
  }

  lemma LineShows(rows: seq<Row>, a: Row, i: nat)
    requires DistinctIds(rows) && a in rows && i < |Merged(rows)| && Merged(rows)[i].key == FinalKey(rows, a)
    requires AllShow(Merged(rows), ClassOf(rows))
    ensures Shows(Merged(rows)[i].group, Partners(rows, a))
  {
    ClassIsPartners(rows, a);
    hide Merged, Shows, FinalKey, Partners, Class;
  }

  /** And every row has one line: those that belong together with it are shown there, and listed on no other. */
  lemma RowsHaveLines(rows: seq<Row>, a: Row) returns (i: nat)
    requires DistinctIds(rows) && a in rows
    ensures i < |Merged(rows)| && Shows(Merged(rows)[i].group, Partners(rows, a))
    ensures forall j, m :: 0 <= j < |Merged(rows)| && j != i && m in Partners(rows, a) ==>
              m.id !in Merged(rows)[j].group.ids
  {
    hide *;
    MergedShows(rows);
    i := LineOf(rows, a);
    LineShows(rows, a, i);
    forall j, m | 0 <= j < |Merged(rows)| && j != i && m in Partners(rows, a)
      ensures m.id !in Merged(rows)[j].group.ids
    {
      ListedElsewhere(rows, a, m, j);
    }
  }

  lemma ListedElsewhere(rows: seq<Row>, a: Row, m: Row, j: nat)
    requires DistinctIds(rows) && a in rows && m in Partners(rows, a) && j < |Merged(rows)|
    requires Merged(rows)[j].key != FinalKey(rows, a) && AllShow(Merged(rows), ClassOf(rows))
    ensures m.id !in Merged(rows)[j].group.ids
  {
    ClassIsPartners(rows, a);
    var g, key := Merged(rows)[j].group, Merged(rows)[j].key;
    assert Shows(g, Class(rows, key));
    if m.id in g.ids {
      var r :| r in Class(rows, key) && r.id == m.id;
      SameId(rows, r, m);
    }
  }
}
