/** Which rows a line of the merged listing lists, told from the rows alone. */
module ResourceListing {
  import opened PyText
  import opened EpisodeKeys
  import opened ResourceGroups

  /** The best of the first `n` rows. */
  function Best(all: seq<Row>, n: nat): Row
    requires 1 <= n <= |all|
  {
    Lead(all[0], all[1..n])
  }

  predicate TakesLead(all: seq<Row>, m: nat) { 1 <= m < |all| && Outranks(all[m], Best(all, m)) }

  /** A row stays listed if no later row takes the lead, or exactly one does, and takes it from this row. */
  predicate Remains(all: seq<Row>, j: nat) {
    j < |all| && forall m :: j < m < |all| && TakesLead(all, m) ==>
      Best(all, m).id == all[j].id && forall n :: m < n < |all| ==> !TakesLead(all, n)
  }

  /** The first row keeps the lead. */
  predicate Undisputed(all: seq<Row>) { forall m :: 1 <= m < |all| ==> !TakesLead(all, m) }

  // --------------------------------------------------------- one row after another

  lemma LeadNext(init: seq<Row>, x: Row)
    requires init != []
    ensures var all, n := init + [x], |init|;
            && (forall m :: 1 <= m <= n ==> Best(all, m) == Best(init, m))
            && (forall m :: 1 <= m < n ==> (TakesLead(all, m) <==> TakesLead(init, m)))
            && (TakesLead(all, n) <==> Outranks(x, Best(init, n)))
            && Best(all, n + 1) == if Outranks(x, Best(init, n)) then x else Best(init, n)
  {
    hide Outranks;
    var all, n := init + [x], |init|;
    assert forall m :: 1 <= m <= n ==> all[1..m] == init[1..m];
    assert all[1..n + 1] == init[1..n] + [x] && (init[1..n] + [x])[..n - 1] == init[1..n];
  }

  lemma LeadMore(init: seq<Row>, x: Row, k: nat)
    requires k < |init| && init[k] == Best(init, |init|) && forall m :: k < m < |init| ==> !TakesLead(init, m)
    ensures var all, n := init + [x], |init|; var l := if Outranks(x, Best(init, n)) then n else k;
            all[l] == Best(all, |all|) && forall m :: l < m < |all| ==> !TakesLead(all, m)
  {
    LeadNext(init, x);
    hide Best, TakesLead, Outranks;
  }

  /** Where the best row stands: nobody takes the lead after it. */
  lemma {:induction false} LeadAt(all: seq<Row>) returns (l: nat)
    requires all != []
    ensures l < |all| && all[l] == Best(all, |all|) && forall m :: l < m < |all| ==> !TakesLead(all, m)
    decreases |all|
  {
    var n := |all| - 1;
    if n == 0 {
      l := 0;
    } else {
      hide *;
      var init, x := all[..n], all[n];
      assert all == init + [x];
      var k := LeadAt(init);
      LeadMore(init, x, k);
      l := if Outranks(x, Best(init, n)) then n else k;
    }
  }

  /** These ids are listed after `all` has been merged into a group that listed `ids`. */
  ghost predicate Lists(ids: seq<int>, all: seq<Row>, listed: seq<int>) {
    forall x :: x in listed <==>
      (x in ids && Undisputed(all)) || exists j :: 0 <= j < |all| && Remains(all, j) && all[j].id == x
  }

  lemma RemainsSame(all: seq<Row>, init: seq<Row>, x: Row)
    requires init != [] && all == init + [x] && !Outranks(x, Best(init, |init|))
    ensures Remains(all, |init|) && forall j :: 0 <= j < |init| ==> (Remains(all, j) <==> Remains(init, j))
    ensures Undisputed(all) <==> Undisputed(init)
  {
    LeadNext(init, x);
    hide Best, TakesLead, Outranks;
  }

  lemma ListsSame(ids: seq<int>, init: seq<Row>, x: Row, listed: seq<int>)
    requires init != [] && Lists(ids, init, listed) && !Outranks(x, Best(init, |init|))
    ensures Lists(ids, init + [x], listed + [x.id])
  {
    var all := init + [x];
    RemainsSame(all, init, x);
    hide Best, Outranks, Remains, Undisputed;
    forall y | y in listed + [x.id]
      ensures (y in ids && Undisputed(all)) || exists j :: 0 <= j < |all| && Remains(all, j) && all[j].id == y
    {
      if y in listed {
        if !(y in ids && Undisputed(init)) {
          var j :| 0 <= j < |init| && Remains(init, j) && init[j].id == y;
          assert Remains(all, j) && all[j].id == y;
        }
      } else {
        assert Remains(all, |init|) && all[|init|] == x;
      }
    }
    forall j | 0 <= j < |all| && Remains(all, j) ensures all[j].id in listed + [x.id] {
      if j < |init| { assert Remains(init, j) && init[j].id == all[j].id; }
    }
  }

  lemma ListsWon(ids: seq<int>, init: seq<Row>, x: Row)
    requires init != [] && Outranks(x, Best(init, |init|))
    ensures Lists(ids, init + [x], [x.id, Best(init, |init|).id])
  {
    var all, n := init + [x], |init|;
    LeadNext(init, x);
    var l := LeadAt(init);
    hide Best, TakesLead, Outranks;
    assert TakesLead(all, n) && all[n] == x;
    assert Remains(all, n) && Remains(all, l) && all[l].id == Best(init, n).id;
    forall j | 0 <= j < |all| && Remains(all, j) ensures all[j].id in [x.id, Best(init, n).id] {
      assert j < n ==> Best(all, n).id == all[j].id;
    }
  }

  lemma FoldSplit(g: Group, init: seq<Row>, x: Row)
    ensures Folded(g, init + [x]) == MergeGroup(Folded(g, init), x)
    ensures Ids(init + [x]) == Ids(init) + [x.id]
    ensures Best([g.row] + init, |init| + 1) == Lead(g.row, init)
  {
    hide MergeGroup, Outranks;
    assert (init + [x])[..|init|] == init && ([g.row] + init)[1..|init| + 1] == init;
  }

  lemma DistinctInit(g: Group, init: seq<Row>, x: Row)
    requires NoRepeats(g.ids + Ids(init + [x]))
    ensures NoRepeats(g.ids + Ids(init)) && x.id !in g.ids + Ids(init)
  {
    FoldSplit(g, init, x);
    hide *;
    assert g.ids + (Ids(init) + [x.id]) == g.ids + Ids(init) + [x.id];
    DistinctLast(g.ids + Ids(init), x.id);
  }

  lemma ListsMore(g: Group, init: seq<Row>, x: Row)
    requires NoRepeats(g.ids + Ids(init + [x])) && g.row.id in g.ids
    requires Lists(g.ids, [g.row] + init, Folded(g, init).ids)
    ensures Lists(g.ids, [g.row] + init + [x], Folded(g, init + [x]).ids)
  {
    hide *;
    DistinctInit(g, init, x);
    FoldSplit(g, init, x);
    FoldedIds(g, init);
    ListsStep(g, init, x, Folded(g, init));
  }

  /** Merging rows one by one lists exactly the rows that remain, and the old ids while the lead is undisputed. */
  lemma {:induction false} FoldedLists(g: Group, items: seq<Row>)
    requires NoRepeats(g.ids + Ids(items)) && g.row.id in g.ids
    ensures Lists(g.ids, [g.row] + items, Folded(g, items).ids)
    decreases |items|
  {
    if items == [] {
      assert [g.row] + items == [g.row] && Folded(g, items) == g;
      hide *;
      OneLists(g);
    } else {
      hide *;
      var init, x := items[..|items| - 1], items[|items| - 1];
      assert items == init + [x];
      DistinctInit(g, init, x);
      FoldedLists(g, init);
      ListsMore(g, init, x);
      assert [g.row] + items == [g.row] + init + [x];
    }
  }

  lemma OneLists(g: Group)
    requires g.row.id in g.ids
    ensures Lists(g.ids, [g.row], g.ids)
  {
    assert Undisputed([g.row]);
  }

  lemma NewId(g: Group, init: seq<Row>, x: Row, f: Group)
    requires x.id !in g.ids + Ids(init) && FoldOk(g, init, f)
    ensures NoRepeats(f.ids) && x.id !in f.ids && f.row.id in f.ids && SameRow(f.row, Lead(g.row, init))
  {
    hide Ids, Lead, SameRow, AllListed, NoLateLead, NoRepeats;
  }

  lemma ListsStep(g: Group, init: seq<Row>, x: Row, f: Group)
    requires x.id !in g.ids + Ids(init) && FoldOk(g, init, f)
    requires |[g.row] + init| >= 1 && Best([g.row] + init, |[g.row] + init|) == Lead(g.row, init)
    requires Lists(g.ids, [g.row] + init, f.ids)
    ensures Lists(g.ids, [g.row] + init + [x], MergeGroup(f, x).ids)
  {
    NewId(g, init, x, f);
    MergeIds(f, x);
    OutranksSame(x, f.row, Lead(g.row, init));
    hide *;
    if Outranks(x, Lead(g.row, init)) {
      ListsWon(g.ids, [g.row] + init, x);
    } else {
      ListsSame(g.ids, [g.row] + init, x, f.ids);
    }
  }

  // ------------------------------------------------------------- links and lines

  /** The links among these whose best row has the key of a line. */
  function LinkKeys(rows: seq<Row>, links: seq<Key>, key: Key): (r: seq<Key>)
    ensures forall k :: k in r ==> RowsOf(rows, k) != []
  {
    if links == [] then []
    else
      var init, k := LinkKeys(rows, links[..|links| - 1], key), links[|links| - 1];
      var part := RowsOf(rows, k);
      if part != [] && SecondKey(Best(part, |part|)) == key then init + [k] else init
  }

  /** The links of a line, in the order of their first rows. */
  function Links(rows: seq<Row>, key: Key): (r: seq<Key>)
    ensures forall k :: k in r ==> RowsOf(rows, k) != []
  {
    LinkKeys(rows, FirstSeen(HashKeys(rows)), key)
  }

  /** The best row of each link. */
  function Heads(rows: seq<Row>, links: seq<Key>): (r: seq<Row>)
    requires forall k :: k in links ==> RowsOf(rows, k) != []
    ensures |r| == |links|
    ensures forall j :: 0 <= j < |r| ==>
              RowsOf(rows, links[j]) != [] && r[j] == Best(RowsOf(rows, links[j]), |RowsOf(rows, links[j])|)
  {
    seq(|links|, j requires 0 <= j < |links| =>
      assert links[j] in links; Best(RowsOf(rows, links[j]), |RowsOf(rows, links[j])|))
  }

  /** A line lists the best rows of its links that remain among them, and while the first link keeps
      the lead, the rows of that link that remain among its rows. */
  predicate Listed(rows: seq<Row>, key: Key, id: int) {
    var heads := Heads(rows, Links(rows, key));
    || (exists j :: 0 <= j < |heads| && Remains(heads, j) && heads[j].id == id)
    || (heads != [] && Undisputed(heads) &&
        var first := RowsOf(rows, Links(rows, key)[0]);
        exists j :: 0 <= j < |first| && Remains(first, j) && first[j].id == id)
  }

  /** A hash group shows the best of its rows and lists those that remain. */
  lemma GroupLists(rows: seq<Row>, slot: Slot)
    requires DistinctIds(rows) && slot in HashGroups(rows)
    ensures var part := RowsOf(rows, slot.key);
            && part != [] && SameRow(slot.group.row, Best(part, |part|))
            && forall x :: x in slot.group.ids <==> exists j :: 0 <= j < |part| && Remains(part, j) && part[j].id == x
  {
    var part := RowsOf(rows, slot.key);
    GroupListsOwn(rows, slot);
    FoldRowsSome(part);
    RowsOfDistinct(rows, slot.key);
    assert FoldRows(part) == Some(Folded(AsGroup(part[0]), part[1..]));
    hide HashGroups, RowsOf, FoldRows, HashKey;
    PartLists(part);
  }

  lemma PartLists(part: seq<Row>)
    requires part != [] && DistinctIds(part)
    ensures var g := Folded(AsGroup(part[0]), part[1..]);
            && SameRow(g.row, Best(part, |part|))
            && forall x :: x in g.ids <==> exists j :: 0 <= j < |part| && Remains(part, j) && part[j].id == x
  {
    var g, rest := AsGroup(part[0]), part[1..];
    assert g.row == part[0] && [part[0]] + rest == part && g.ids == [part[0].id] && part[1..|part|] == rest;
    assert Best(part, |part|) == Lead(part[0], rest);
    hide *;
    IdsDistinct(part);
    FoldedIds(g, rest);
    FoldedLists(g, rest);
    FoldLead(g, rest, Folded(g, rest));
    AloneLists(part, Folded(g, rest).ids);
  }

  lemma FoldLead(g: Group, items: seq<Row>, f: Group)
    requires FoldOk(g, items, f)
    ensures SameRow(f.row, Lead(g.row, items))
  {
  }

  lemma AloneLists(part: seq<Row>, listed: seq<int>)
    requires part != [] && Lists([part[0].id], part, listed)
    ensures forall x :: x in listed <==> exists j :: 0 <= j < |part| && Remains(part, j) && part[j].id == x
  {
    hide TakesLead, Best;
    assert Undisputed(part) ==> Remains(part, 0);
    hide Remains, Undisputed;
  }

  lemma LinkKeysPush(rows: seq<Row>, links: seq<Key>, k: Key, key: Key)
    requires RowsOf(rows, k) != []
    ensures LinkKeys(rows, links + [k], key)
            == LinkKeys(rows, links, key)
             + if SecondKey(Best(RowsOf(rows, k), |RowsOf(rows, k)|)) == key then [k] else []
  {
    hide RowsOf, Best, SecondKey;
    assert (links + [k])[..|links|] == links;
  }

  lemma FedPush(init: seq<Slot>, s: Slot, key: Key)
    ensures Fed(init + [s], key) == Fed(init, key) + if SecondKey(s.group.row) == key then [s] else []
  {
    FedLast(init + [s], key);
    assert (init + [s])[..|init|] == init;
    hide Fed, SecondKey;
  }

  /** The slot shows the best row of its link. */
  ghost predicate ShowsBest(rows: seq<Row>, s: Slot) {
    RowsOf(rows, s.key) != [] && SameRow(s.group.row, Best(RowsOf(rows, s.key), |RowsOf(rows, s.key)|))
  }

  lemma BestKey(rows: seq<Row>, s: Slot)
    requires ShowsBest(rows, s)
    ensures RowsOf(rows, s.key) != []
    ensures SecondKey(s.group.row) == SecondKey(Best(RowsOf(rows, s.key), |RowsOf(rows, s.key)|))
  {
    hide RowsOf, Best;
    SameSecond(s.group.row, Best(RowsOf(rows, s.key), |RowsOf(rows, s.key)|));
  }

  lemma LinksMore(rows: seq<Row>, init: seq<Slot>, s: Slot, key: Key)
    requires ShowsBest(rows, s) && LinkKeys(rows, Keys(init), key) == Keys(Fed(init, key))
    ensures LinkKeys(rows, Keys(init + [s]), key) == Keys(Fed(init + [s], key))
  {
    hide *;
    BestKey(rows, s);
    KeysPush(init, s);
    LinkKeysPush(rows, Keys(init), s.key, key);
    FedPush(init, s, key);
    if SecondKey(s.group.row) == key {
      KeysPush(Fed(init, key), s);
    }
  }

  /** The slots of a line are those of its links. */
  lemma {:induction false} LinksFed(rows: seq<Row>, slots: seq<Slot>, key: Key)
    requires forall s :: s in slots ==> ShowsBest(rows, s)
    ensures LinkKeys(rows, Keys(slots), key) == Keys(Fed(slots, key))
    decreases |slots|
  {
    if slots == [] {
      assert LinkKeys(rows, [], key) == [];
    } else {
      hide *;
      var init, s := slots[..|slots| - 1], slots[|slots| - 1];
      assert slots == init + [s] && s in slots && forall x :: x in init ==> x in slots;
      LinksFed(rows, init, key);
      LinksMore(rows, init, s, key);
    }
  }

  lemma SameSecond(a: Row, b: Row)
    requires SameRow(a, b)
    ensures SecondKey(a) == SecondKey(b)
  {
  }

  /** Rows that differ only in the error they show take the lead alike. */
  lemma {:induction false} SameBest(a: seq<Row>, b: seq<Row>, n: nat)
    requires |a| == |b| && 1 <= n <= |a| && forall i :: 0 <= i < |a| ==> SameRow(a[i], b[i])
    ensures SameRow(Best(a, n), Best(b, n))
    decreases n
  {
    if n > 1 {
      SameBest(a, b, n - 1);
      assert a[1..n] == a[1..n - 1] + [a[n - 1]] && b[1..n] == b[1..n - 1] + [b[n - 1]];
      LeadLast(a[0], a[1..n - 1], a[n - 1]);
      LeadLast(b[0], b[1..n - 1], b[n - 1]);
      assert SameRow(a[n - 1], b[n - 1]);
      SameOutranks(a[n - 1], b[n - 1], Best(a, n - 1), Best(b, n - 1));
      hide Lead, Outranks, SameRow;
    }
  }

  lemma SameOutranks(a: Row, b: Row, c: Row, d: Row)
    requires SameRow(a, b) && SameRow(c, d)
    ensures Outranks(a, c) <==> Outranks(b, d)
    ensures a.id == b.id && c.id == d.id
  {
  }

  lemma SameTakes(a: seq<Row>, b: seq<Row>)
    requires |a| == |b| && forall i :: 0 <= i < |a| ==> SameRow(a[i], b[i])
    ensures forall m :: 1 <= m < |a| ==> (TakesLead(a, m) <==> TakesLead(b, m)) && Best(a, m).id == Best(b, m).id
  {
    forall m | 1 <= m < |a|
      ensures (TakesLead(a, m) <==> TakesLead(b, m)) && Best(a, m).id == Best(b, m).id
    {
      SameBest(a, b, m);
      SameOutranks(a[m], b[m], Best(a, m), Best(b, m));
      hide Best, Outranks, SameRow;
    }
  }

  lemma SameRemain(a: seq<Row>, b: seq<Row>)
    requires |a| == |b| && forall i :: 0 <= i < |a| ==> SameRow(a[i], b[i])
    ensures (Undisputed(a) <==> Undisputed(b)) && forall j :: 0 <= j < |a| ==> (Remains(a, j) <==> Remains(b, j))
  {
    SameTakes(a, b);
    assert forall i :: 0 <= i < |a| ==> a[i].id == b[i].id;
    hide Best, TakesLead, SameRow;
  }

  /** The links of a line are the keys of its slots, and their best rows are those shown. */
  lemma LineLinks(rows: seq<Row>, key: Key)
    requires DistinctIds(rows)
    ensures var fed, links := BehindSlots(rows, key), Links(rows, key);
            && links == Keys(fed) && |Heads(rows, links)| == |fed|
            && forall j :: 0 <= j < |fed| ==> SameRow(fed[j].group.row, Heads(rows, links)[j])
  {
    var slots, fed := HashGroups(rows), BehindSlots(rows, key);
    HashGroupsKeys(rows);
    assert BehindSlots(rows, key) == Fed(slots, key) && Links(rows, key) == LinkKeys(rows, Keys(slots), key) by {
      hide HashGroups, HashKeys, LinkKeys, Fed;
    }
    hide *;
    forall s | s in slots ensures ShowsBest(rows, s) { SlotBest(rows, s); }
    LinksFed(rows, slots, key);
    HeadsShown(rows, fed);
  }

  lemma SlotBest(rows: seq<Row>, s: Slot)
    requires DistinctIds(rows) && s in HashGroups(rows)
    ensures ShowsBest(rows, s)
  {
    GroupLists(rows, s);
    hide HashGroups, RowsOf, Best, SameRow;
  }

  lemma HeadsShown(rows: seq<Row>, fed: seq<Slot>)
    requires forall s :: s in fed ==> ShowsBest(rows, s)
    requires forall k :: k in Keys(fed) ==> RowsOf(rows, k) != []
    ensures |Heads(rows, Keys(fed))| == |fed|
    ensures forall j :: 0 <= j < |fed| ==> SameRow(fed[j].group.row, Heads(rows, Keys(fed))[j])
  {
    hide RowsOf, Best, SameRow;
    forall j | 0 <= j < |fed| ensures SameRow(fed[j].group.row, Heads(rows, Keys(fed))[j]) {
      assert fed[j] in fed && ShowsBest(rows, fed[j]) && Keys(fed)[j] == fed[j].key;
    }
  }

  lemma ShownBehind(rows: seq<Row>, fed: seq<Slot>, k: nat) returns (own: Row)
    requires FedOk(rows, fed) && k < |fed|
    ensures own in RowsOf(rows, fed[k].key) && own.id == fed[k].group.row.id
    ensures fed[k].group.row.id in fed[k].group.ids
  {
    assert ListsOwn(fed[k].group, RowsOf(rows, fed[k].key));
    hide RowsOf, DistinctKeys, Folds;
    own :| own in RowsOf(rows, fed[k].key) && own.id == fed[k].group.row.id;
  }

  lemma IdsAlone(rows: seq<Row>, slot: Slot)
    requires slot in HashGroups(rows)
    ensures NoRepeats(slot.group.ids)
  {
    HashGroupsShow(rows);
    hide HashGroups;
    var i :| 0 <= i < |HashGroups(rows)| && HashGroups(rows)[i] == slot;
    assert Shows(slot.group, RowsWith(rows, slot.key));
  }

  lemma DistinctShownIds(fed: seq<Slot>)
    requires fed != [] && NoRepeats(fed[0].group.ids)
    requires forall j, k :: 0 <= j < k < |fed| ==>
               fed[j].group.row.id != fed[k].group.row.id && fed[k].group.row.id !in fed[j].group.ids
    ensures NoRepeats(fed[0].group.ids + Ids(Shown(fed[1..])))
  {
    var a, b := fed[0].group.ids, Ids(Shown(fed[1..]));
    assert forall k :: 0 <= k < |b| ==> b[k] == fed[k + 1].group.row.id;
    forall j, k | 0 <= j < |a| && 0 <= k < |b| ensures a[j] != b[k] { assert a[j] in a; }
  }

  /** The slots of a line, merged, repeat no id. */
  lemma LineDistinct(rows: seq<Row>, key: Key)
    requires DistinctIds(rows) && BehindSlots(rows, key) != []
    ensures var fed := BehindSlots(rows, key);
            NoRepeats(fed[0].group.ids + Ids(Shown(fed[1..]))) && fed[0].group.row.id in fed[0].group.ids
  {
    var fed := BehindSlots(rows, key);
    assert fed[0] in fed && fed[0] in HashGroups(rows);
    FedFacts(rows, key);
    IdsAlone(rows, fed[0]);
    assert DistinctKeys(fed) && forall j :: 0 <= j < |fed| ==> ListsOwn(fed[j].group, RowsOf(rows, fed[j].key));
    hide *;
    forall j, k | 0 <= j < k < |fed|
      ensures fed[j].group.row.id != fed[k].group.row.id && fed[k].group.row.id !in fed[j].group.ids
    {
      var own := ShownBehind(rows, fed, k);
      ElsewhereUnlisted(rows, fed, k, j, own);
    }
    var own := ShownBehind(rows, fed, 0);
    DistinctShownIds(fed);
  }

  lemma ShownFirst(fed: seq<Slot>)
    requires fed != []
    ensures [fed[0].group.row] + Shown(fed[1..]) == Shown(fed)
  {
    var a, b := [fed[0].group.row] + Shown(fed[1..]), Shown(fed);
    forall j | 0 <= j < |b| ensures a[j] == b[j] { assert j > 0 ==> a[j] == fed[1..][j - 1].group.row; }
  }

  lemma LineParts(rows: seq<Row>, key: Key)
    requires BehindSlots(rows, key) != []
    ensures var fed := BehindSlots(rows, key);
            && fed[0] in HashGroups(rows)
            && FoldSlots(fed) == Some(Folded(fed[0].group, Shown(fed[1..])))
  {
    hide HashGroups, Folded, Shown;
    assert BehindSlots(rows, key)[0] in BehindSlots(rows, key);
  }

  lemma LineLists(rows: seq<Row>, key: Key, g: Group)
    requires DistinctIds(rows) && BehindSlots(rows, key) != [] && FoldSlots(BehindSlots(rows, key)) == Some(g)
    ensures forall x :: x in g.ids <==> Listed(rows, key, x)
  {
    hide *;
    var fed := BehindSlots(rows, key);
    LineParts(rows, key);
    LineDistinct(rows, key);
    FoldedLists(fed[0].group, Shown(fed[1..]));
    ShownFirst(fed);
    LineLinks(rows, key);
    GroupLists(rows, fed[0]);
    FirstKey(fed);
    ListedAs(rows, key, fed[0].group.ids, Shown(fed), g.ids);
  }

  lemma FirstKey(fed: seq<Slot>)
    requires fed != []
    ensures Keys(fed)[0] == fed[0].key
    ensures |Shown(fed)| == |fed| && forall i :: 0 <= i < |fed| ==> Shown(fed)[i] == fed[i].group.row
  {
  }

  lemma ListedAs(rows: seq<Row>, key: Key, ids: seq<int>, shown: seq<Row>, listed: seq<int>)
    requires var heads := Heads(rows, Links(rows, key));
             |heads| == |shown| && forall j :: 0 <= j < |shown| ==> SameRow(shown[j], heads[j])
    requires shown != [] && Lists(ids, shown, listed)
    requires var part := RowsOf(rows, Links(rows, key)[0]);
             forall x :: x in ids <==> exists j :: 0 <= j < |part| && Remains(part, j) && part[j].id == x
    ensures forall x :: x in listed <==> Listed(rows, key, x)
  {
    var heads, part := Heads(rows, Links(rows, key)), RowsOf(rows, Links(rows, key)[0]);
    SameRemain(shown, heads);
    assert forall j :: 0 <= j < |shown| ==> shown[j].id == heads[j].id;
    hide Remains, Undisputed, Heads, Links, RowsOf, SameRow;
    forall x ensures x in listed <==> Listed(rows, key, x) {
      assert (exists j :: 0 <= j < |shown| && Remains(shown, j) && shown[j].id == x)
        <==> (exists j :: 0 <= j < |heads| && Remains(heads, j) && heads[j].id == x) by {
        if j :| 0 <= j < |shown| && Remains(shown, j) && shown[j].id == x { assert Remains(heads, j); }
        if j :| 0 <= j < |heads| && Remains(heads, j) && heads[j].id == x { assert Remains(shown, j); }
      }
    }
  }

  /** A line of the merged listing lists exactly these ids. */
  lemma IdsListedExactly(rows: seq<Row>, i: nat)
    requires DistinctIds(rows) && i < |Merged(rows)|
    ensures var slot := Merged(rows)[i]; forall x :: x in slot.group.ids <==> Listed(rows, slot.key, x)
  {
    var slot := Merged(rows)[i];
    LineFolds(rows, i);
    hide *;
    LineLists(rows, slot.key, slot.group);
  }

  // ------------------------------------------------------------------- episodes

  /** An episode of a row that the line lists. */
  ghost predicate ListedEpisode(rows: seq<Row>, key: Key, k: EpisodeKey) {
    exists own :: own in rows && Listed(rows, key, own.id) && k in own.episodes
  }

  /** And a line lists exactly the episodes of these rows. */
  lemma EpisodesListedExactly(rows: seq<Row>, i: nat)
    requires DistinctIds(rows) && i < |Merged(rows)|
    ensures var slot := Merged(rows)[i]; forall k :: k in slot.group.keys <==> ListedEpisode(rows, slot.key, k)
  {
    var slot := Merged(rows)[i];
    IdsListedExactly(rows, i);
    EpisodesFollowIds(rows, i);
    hide Merged, Listed;
    forall k ensures k in slot.group.keys <==> ListedEpisode(rows, slot.key, k) {
      if k in slot.group.keys {
        var j :| 0 <= j < |rows| && rows[j].id in slot.group.ids && k in rows[j].episodes;
        assert rows[j] in rows && Listed(rows, slot.key, rows[j].id);
      }
      if ListedEpisode(rows, slot.key, k) {
        var own :| own in rows && Listed(rows, slot.key, own.id) && k in own.episodes;
        var j :| 0 <= j < |rows| && rows[j] == own;
        assert k in EpisodesOf(rows, slot.group.ids);
      }
    }
  }

  /** So it lists all episodes of its class exactly if its listed rows have those of the others. */
  lemma EpisodesCompleteExactly(rows: seq<Row>, i: nat)
    requires DistinctIds(rows) && i < |Merged(rows)|
    ensures var key := Merged(rows)[i].key;
            (forall r, k :: r in Class(rows, key) && k in r.episodes ==> k in Merged(rows)[i].group.keys)
            <==> forall r, k :: r in Class(rows, key) && !Listed(rows, key, r.id) && k in r.episodes ==>
                   ListedEpisode(rows, key, k)
  {
    EpisodesListedExactly(rows, i);
    var key := Merged(rows)[i].key;
    assert forall r :: r in Class(rows, key) ==> r in rows by { hide Merged; }
    hide Merged, Class, Listed;
    forall r, k | r in Class(rows, key) && Listed(rows, key, r.id) && k in r.episodes
      ensures ListedEpisode(rows, key, k)
    {
      assert r in rows;
    }
    hide ListedEpisode;
  }
}
