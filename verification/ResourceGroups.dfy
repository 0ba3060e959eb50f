/** Merging resource rows for display: first by link hash, then by identical episode sets. */
module ResourceGroups {
  import opened PyText
  import opened EpisodeKeys

  /** `link` is the dedupe key of the row's link; `status` is case-folded; `episodes` were read from its texts. */
  datatype Row = Row(
    id: int,
    sub: int,
    status: string,
    link: Option<(string, string)>,
    episodes: set<EpisodeKey>,
    lastError: string)

  datatype Group = Group(row: Row, ids: seq<int>, keys: set<EpisodeKey>)

  datatype Key =
    | ByHash(sub: int, link: (string, string))
    | ById(sub: int, id: int)
    | ByEpisodes(sub: int, status: string, episodes: set<EpisodeKey>)
    | ByRow(id: int)

  /** An ordered dictionary from keys to groups. */
  datatype Slot = Slot(key: Key, group: Group)

  /** `_status_rank`. */
  function Rank(status: string): int {
    if status == "delivered" then 100
    else if status == "pending" then 80
    else if status == "pending_recheck" then 70
    else if status == "delivery_failed_retryable" then 60
    else if status == "failed" then 50
    else if status == "delivery_failed_final" then 40
    else if status == "link_invalid" then 30
    else if status == "skipped" then 10
    else if status == "matched_not_needed" then 5
    else 0
  }

  function HashKey(r: Row): Key { if r.link.Some? then ByHash(r.sub, r.link.value) else ById(r.sub, r.id) }

  function EpisodeGroupKey(r: Row): Option<Key> {
    if r.sub == 0 || (r.status != "delivered" && r.status != "pending") || r.episodes == {} then None
    else Some(ByEpisodes(r.sub, r.status, r.episodes))
  }

  /** The key of the second phase; rows without an episode key stay alone. */
  function SecondKey(r: Row): Key {
    if EpisodeGroupKey(r).Some? then EpisodeGroupKey(r).value else ByRow(r.id)
  }

  function AsGroup(r: Row): Group { Group(r, [r.id], r.episodes) }

  /** What remains of a list when only first occurrences are kept. */
  function FirstSeen<T(==,!new)>(s: seq<T>): (r: seq<T>)
    ensures forall x :: x in r <==> x in s
    ensures forall i, j :: 0 <= i < j < |r| ==> r[i] != r[j]
  {
    if s == [] then []
    else
      var init, x := FirstSeen(s[..|s| - 1]), s[|s| - 1];
      assert s == s[..|s| - 1] + [x];
      if x in init then init else init + [x]
  }

  predicate Outranks(a: Row, b: Row) {
    Rank(a.status) > Rank(b.status) || (Rank(a.status) == Rank(b.status) && a.id > b.id)
  }

  /** The merged row: the loser's error is shown only on a row that has none and has not got past `failed`. */
  function Joined(a: Group, b: Group): Group {
    var open := a.row.lastError == "" && Rank(a.row.status) <= Rank("failed");
    var error := if open then b.row.lastError else a.row.lastError;
    Group(a.row.(lastError := error), FirstSeen(a.ids + b.ids), a.keys + b.keys + a.row.episodes + b.row.episodes)
  }

  /** `_merge_group`: the newcomer is always regrouped, and so is the primary when it is displaced. */
  function MergeGroup(primary: Group, newcomer: Row): Group {
    if Outranks(newcomer, primary.row) then Joined(AsGroup(newcomer), AsGroup(primary.row))
    else Joined(primary, AsGroup(newcomer))
  }

  method MergedIds(values: seq<int>) returns (ids: seq<int>)
    ensures ids == FirstSeen(values)
  {
    ids := [];
    for i := 0 to |values|
      invariant ids == FirstSeen(values[..i])
    {
      assert values[..i + 1][..i] == values[..i];
      if values[i] !in ids {
        ids := ids + [values[i]];
      }
    }
    assert values[..|values|] == values;
  }

  method MergeGroups(first: Group, item: Row) returns (r: Group)
    ensures r == MergeGroup(first, item)
  {
    var primary, secondary := first, AsGroup(item);
    if Rank(secondary.row.status) > Rank(primary.row.status)
       || (Rank(secondary.row.status) == Rank(primary.row.status) && secondary.row.id > primary.row.id)
    {
      primary, secondary := secondary, primary;
      primary := AsGroup(primary.row);
      secondary := AsGroup(secondary.row);
    }
    var ids := MergedIds(primary.ids + secondary.ids);
    var keys := primary.keys + secondary.keys;
    keys := keys + primary.row.episodes;
    keys := keys + secondary.row.episodes;
    r := Group(primary.row, ids, keys);
    if r.row.lastError == "" && secondary.row.lastError != "" {
      if Rank(r.row.status) <= Rank("failed") {
        r := r.(row := r.row.(lastError := secondary.row.lastError));
      }
    }
  }

  // ----------------------------------------------------------- ordered dictionary

  function Find(slots: seq<Slot>, key: Key): (i: nat)
    ensures i <= |slots| && (i < |slots| ==> slots[i].key == key) && forall j :: 0 <= j < i ==> slots[j].key != key
  {
    if slots == [] || slots[0].key == key then 0 else 1 + Find(slots[1..], key)
  }

  function Keys(slots: seq<Slot>): (r: seq<Key>)
    ensures |r| == |slots| && forall i :: 0 <= i < |slots| ==> r[i] == slots[i].key
  {
    if slots == [] then [] else [slots[0].key] + Keys(slots[1..])
  }

  /** Merge into the group of the key, or start it. */
  function Enter(slots: seq<Slot>, key: Key, item: Row, first: Group): seq<Slot> {
    var i := Find(slots, key);
    if i < |slots| then slots[i := Slot(key, MergeGroup(slots[i].group, item))] else slots + [Slot(key, first)]
  }

  /** `by_hash`. */
  function HashGroups(rows: seq<Row>): seq<Slot> {
    if rows == [] then []
    else
      var r := rows[|rows| - 1];
      Enter(HashGroups(rows[..|rows| - 1]), HashKey(r), r, AsGroup(r))
  }

  function EnterSecond(slots: seq<Slot>, g: Group): seq<Slot> {
    var key := SecondKey(g.row);
    if EpisodeGroupKey(g.row).None? && Find(slots, key) < |slots| then slots[Find(slots, key) := Slot(key, g)]
    else Enter(slots, key, g.row, g)
  }

  /** `by_episode`. */
  function EpisodeGroups(hashed: seq<Slot>): seq<Slot> {
    if hashed == [] then [] else EnterSecond(EpisodeGroups(hashed[..|hashed| - 1]), hashed[|hashed| - 1].group)
  }

  method GroupByHash(items: seq<Row>) returns (byHash: seq<Slot>)
    ensures byHash == HashGroups(items)
  {
    hide MergeGroup;
    byHash := [];
    for i := 0 to |items|
      invariant byHash == HashGroups(items[..i])
    {
      assert items[..i + 1][..i] == items[..i];
      var item := items[i];
      var at := Find(byHash, HashKey(item));
      if at < |byHash| {
        var g := MergeGroups(byHash[at].group, item);
        byHash := byHash[at := Slot(HashKey(item), g)];
      } else {
        byHash := byHash + [Slot(HashKey(item), AsGroup(item))];
      }
    }
    assert items[..|items|] == items;
  }

  method GroupByEpisode(byHash: seq<Slot>) returns (merged: seq<Slot>)
    ensures merged == EpisodeGroups(byHash)
  {
    hide MergeGroup;
    merged := [];
    for i := 0 to |byHash|
      invariant merged == EpisodeGroups(byHash[..i])
    {
      assert byHash[..i + 1][..i] == byHash[..i];
      var item := byHash[i].group;
      var key := EpisodeGroupKey(item.row);
      if key.None? {
        var at := Find(merged, ByRow(item.row.id));
        merged := if at < |merged| then merged[at := Slot(ByRow(item.row.id), item)]
          else merged + [Slot(ByRow(item.row.id), item)];
        continue;
      }
      var at := Find(merged, key.value);
      if at < |merged| {
        var g := MergeGroups(merged[at].group, item.row);
        merged := merged[at := Slot(key.value, g)];
      } else {
        merged := merged + [Slot(key.value, item)];
      }
    }
    assert byHash[..|byHash|] == byHash;
  }

  method MergeResourceRows(items: seq<Row>) returns (merged: seq<Slot>)
    ensures merged == EpisodeGroups(HashGroups(items))
  {
    var byHash := GroupByHash(items);
    merged := GroupByEpisode(byHash);
  }

  // ------------------------------------------------------- what a group stands for

  predicate SameRow(a: Row, b: Row) { a.(lastError := b.lastError) == b }

  predicate AtLeast(a: Row, b: Row) {
    Rank(a.status) > Rank(b.status) || (Rank(a.status) == Rank(b.status) && a.id >= b.id)
  }

  /** The error shown: the row's own, or another member's where it has none and has not got past `failed`. */
  ghost predicate ErrorFrom(shown: Row, own: Row, members: set<Row>) {
    shown.lastError == own.lastError
    || (&& own.lastError == "" && Rank(own.status) <= Rank("failed")
        && exists m :: m in members && m.lastError == shown.lastError)
  }

  /** A group shows the highest member by (status rank, id), and its ids and episodes come from members. */
  ghost predicate Shows(g: Group, members: set<Row>) {
    && (exists own :: own in members && SameRow(g.row, own) && ErrorFrom(g.row, own, members))
    && (forall m :: m in members ==> AtLeast(g.row, m))
    && g.row.id in g.ids && (forall x :: x in g.ids ==> exists m :: m in members && m.id == x)
    && (forall i, j :: 0 <= i < j < |g.ids| ==> g.ids[i] != g.ids[j])
    && g.row.episodes <= g.keys && (forall k :: k in g.keys ==> exists m :: m in members && k in m.episodes)
  }

  lemma AloneShows(r: Row)
    ensures Shows(AsGroup(r), {r})
  {
    assert SameRow(r, r) && ErrorFrom(r, r, {r});
  }

  /** The parts of `Shows` that regrouping the row alone keeps. */
  lemma RegroupedShows(g: Group, members: set<Row>)
    requires Shows(g, members)
    ensures Shows(AsGroup(g.row), members)
  {
    var own :| own in members && SameRow(g.row, own) && ErrorFrom(g.row, own, members);
  }

  lemma ErrorCarried(a: Group, m: set<Row>, b: Group, n: set<Row>)
    requires Shows(a, m) && Shows(b, n)
    ensures exists own :: own in m + n && SameRow(Joined(a, b).row, own) && ErrorFrom(Joined(a, b).row, own, m + n)
  {
    var p :| p in m && SameRow(a.row, p) && ErrorFrom(a.row, p, m);
    var q :| q in n && SameRow(b.row, q) && ErrorFrom(b.row, q, n);
    assert p in m + n && q in m + n;
    assert exists x :: x in m + n && x.lastError == b.row.lastError by {
      if b.row.lastError != q.lastError {
        var x :| x in n && x.lastError == b.row.lastError;
        assert x in m + n;
      }
    }
    if a.row.lastError != p.lastError {
      var x :| x in m && x.lastError == a.row.lastError;
      assert x in m + n;
    }
    assert SameRow(Joined(a, b).row, p) && ErrorFrom(Joined(a, b).row, p, m + n);
  }

  lemma JoinedShows(a: Group, m: set<Row>, b: Group, n: set<Row>)
    requires Shows(a, m) && Shows(b, n) && AtLeast(a.row, b.row)
    ensures Shows(Joined(a, b), m + n)
  {
    var g := Joined(a, b);
    ErrorCarried(a, m, b, n);
    hide ErrorFrom, Rank;
    forall x | x in m + n ensures AtLeast(g.row, x) { assert x in n ==> AtLeast(b.row, x); }
    forall x | x in g.ids ensures exists y :: y in m + n && y.id == x {
      assert x in a.ids || x in b.ids;
      if x in a.ids { var y :| y in m && y.id == x; assert y in m + n; }
      else { var y :| y in n && y.id == x; assert y in m + n; }
    }
    assert g.row.id in a.ids + b.ids;
    forall k | k in g.keys ensures exists y :: y in m + n && k in y.episodes {
      if k in a.keys { var y :| y in m && k in y.episodes; assert y in m + n; }
      else { assert k in b.keys; var y :| y in n && k in y.episodes; assert y in m + n; }
    }
  }

  /** Merging keeps the maximum and loses no soundness, whichever of the two is displaced. */
  lemma MergeShows(p: Group, m: set<Row>, s: Group, n: set<Row>)
    requires Shows(p, m) && Shows(s, n)
    ensures Shows(MergeGroup(p, s.row), m + n)
  {
    hide Shows, Joined;
    RegroupedShows(s, n);
    if Outranks(s.row, p.row) {
      RegroupedShows(p, m);
      JoinedShows(AsGroup(s.row), n, AsGroup(p.row), m);
      assert n + m == m + n;
    } else {
      JoinedShows(p, m, AsGroup(s.row), n);
    }
  }

  // ------------------------------------------------------------------- first phase

  predicate DistinctIds(rows: seq<Row>) { forall i, j :: 0 <= i < j < |rows| ==> rows[i].id != rows[j].id }

  function RowsWith(rows: seq<Row>, key: Key): set<Row> { set r | r in rows && HashKey(r) == key }

  function WithKey(rows: seq<Row>): Key -> set<Row> { k => RowsWith(rows, k) }

  function HashKeys(rows: seq<Row>): (r: seq<Key>)
    ensures |r| == |rows| && forall i :: 0 <= i < |rows| ==> r[i] == HashKey(rows[i])
  {
    if rows == [] then [] else HashKeys(rows[..|rows| - 1]) + [HashKey(rows[|rows| - 1])]
  }

  lemma FirstSeenPush<T(!new)>(s: seq<T>, x: T)
    ensures FirstSeen(s + [x]) == if x in s then FirstSeen(s) else FirstSeen(s) + [x]
  {
    assert (s + [x])[..|s|] == s;
  }

  lemma KeyIn(slots: seq<Slot>, key: Key)
    ensures Find(slots, key) < |slots| <==> key in Keys(slots)
  {
    if key in Keys(slots) {
      var j :| 0 <= j < |slots| && Keys(slots)[j] == key;
      assert slots[j].key == key;
    }
    assert Find(slots, key) < |slots| ==> Keys(slots)[Find(slots, key)] == key;
  }

  lemma EnterKeys(slots: seq<Slot>, seen: seq<Key>, key: Key, item: Row, first: Group)
    requires Keys(slots) == FirstSeen(seen)
    ensures Keys(Enter(slots, key, item, first)) == FirstSeen(seen + [key])
    ensures Find(slots, key) < |slots| <==> key in seen
  {
    KeyIn(slots, key);
    FirstSeenPush(seen, key);
    assert key in Keys(slots) <==> key in seen;
    hide MergeGroup, FirstSeen, Keys;
    if key in seen {
      KeysPut(slots, Find(slots, key), MergeGroup(slots[Find(slots, key)].group, item));
    } else {
      KeysPush(slots, Slot(key, first));
    }
  }

  lemma KeysPut(slots: seq<Slot>, i: nat, g: Group)
    requires i < |slots|
    ensures Keys(slots[i := Slot(slots[i].key, g)]) == Keys(slots)
  {
  }

  lemma KeysPush(slots: seq<Slot>, s: Slot)
    ensures Keys(slots + [s]) == Keys(slots) + [s.key]
  {
  }

  ghost predicate AllShow(slots: seq<Slot>, members: Key -> set<Row>) {
    forall i :: 0 <= i < |slots| ==> Shows(slots[i].group, members(slots[i].key))
  }

  predicate DistinctKeys(slots: seq<Slot>) { forall i, j :: 0 <= i < j < |slots| ==> slots[i].key != slots[j].key }

  lemma KeysDistinct(slots: seq<Slot>, seen: seq<Key>)
    requires Keys(slots) == FirstSeen(seen)
    ensures DistinctKeys(slots)
  {
    forall i, j | 0 <= i < j < |slots| ensures slots[i].key != slots[j].key { assert Keys(slots)[i] != Keys(slots)[j]; }
  }

  /** Entering one group adds its members to its key and changes no other. */
  lemma EnterShows(slots: seq<Slot>, key: Key, g: Group, added: set<Row>, before: Key -> set<Row>,
                   after: Key -> set<Row>)
    requires DistinctKeys(slots) && AllShow(slots, before) && Shows(g, added)
    requires after(key) == before(key) + added && (key !in Keys(slots) ==> before(key) == {})
    requires forall k :: k != key ==> after(k) == before(k)
    ensures AllShow(Enter(slots, key, g.row, g), after)
  {
    KeyIn(slots, key);
    hide Shows, MergeGroup, Find;
    var i := Find(slots, key);
    if i < |slots| {
      MergeShows(slots[i].group, before(key), g, added);
    } else {
      assert after(key) == added;
    }
  }

  lemma {:induction false} HashGroupsKeys(rows: seq<Row>)
    ensures Keys(HashGroups(rows)) == FirstSeen(HashKeys(rows))
    decreases |rows|
  {
    if rows != [] {
      var init, r := rows[..|rows| - 1], rows[|rows| - 1];
      HashGroupsKeys(init);
      EnterKeys(HashGroups(init), HashKeys(init), HashKey(r), r, AsGroup(r));
    }
  }

  lemma RowsWithNext(init: seq<Row>, r: Row)
    ensures forall k :: RowsWith(init + [r], k) == RowsWith(init, k) + if k == HashKey(r) then {r} else {}
    ensures HashKey(r) !in HashKeys(init) ==> RowsWith(init, HashKey(r)) == {}
  {
    hide HashKey, HashKeys;
    if HashKey(r) !in HashKeys(init) {
      forall x | x in init ensures HashKey(x) != HashKey(r) { KeySeen(init, x); }
    }
  }

  lemma HashStep(init: seq<Row>, r: Row, slots: seq<Slot>)
    requires DistinctKeys(slots) && AllShow(slots, WithKey(init))
    requires Keys(slots) == FirstSeen(HashKeys(init))
    ensures AllShow(Enter(slots, HashKey(r), r, AsGroup(r)), WithKey(init + [r]))
  {
    AloneShows(r);
    RowsWithNext(init, r);
    hide RowsWith, Shows, Enter, HashKey, AllShow, DistinctKeys, Keys, HashKeys;
    assert AsGroup(r).row == r;
    EnterShows(slots, HashKey(r), AsGroup(r), {r}, WithKey(init), WithKey(init + [r]));
  }

  lemma HashGroupsLast(rows: seq<Row>)
    requires rows != []
    ensures var init, r := rows[..|rows| - 1], rows[|rows| - 1];
            HashGroups(rows) == Enter(HashGroups(init), HashKey(r), r, AsGroup(r)) && rows == init + [r]
  {
    hide Enter, HashKey, AsGroup;
  }

  lemma NoneShown(members: Key -> set<Row>)
    ensures AllShow([], members) && HashGroups([]) == [] && EpisodeGroups([]) == []
  {
  }

  lemma {:induction false} HashGroupsShow(rows: seq<Row>)
    ensures AllShow(HashGroups(rows), WithKey(rows))
    decreases |rows|
  {
    hide *;
    if rows == [] {
      NoneShown(WithKey(rows));
    } else {
      var init, r := rows[..|rows| - 1], rows[|rows| - 1];
      HashGroupsShow(init);
      HashGroupsKeys(init);
      KeysDistinct(HashGroups(init), HashKeys(init));
      HashStep(init, r, HashGroups(init));
      HashGroupsLast(rows);
    }
  }

  lemma KeySeen(rows: seq<Row>, r: Row)
    requires r in rows
    ensures HashKey(r) in HashKeys(rows)
  {
    var i :| 0 <= i < |rows| && rows[i] == r;
    assert HashKeys(rows)[i] == HashKey(r);
  }

  // ------------------------------------------------------------------ second phase

  function SecondKeys(hashed: seq<Slot>): (r: seq<Key>)
    ensures |r| == |hashed| && forall i :: 0 <= i < |hashed| ==> r[i] == SecondKey(hashed[i].group.row)
  {
    if hashed == [] then [] else SecondKeys(hashed[..|hashed| - 1]) + [SecondKey(hashed[|hashed| - 1].group.row)]
  }

  predicate DistinctShown(hashed: seq<Slot>) {
    forall i, j :: 0 <= i < j < |hashed| ==> hashed[i].group.row.id != hashed[j].group.row.id
  }

  /** Members of the hash groups that share a second key. */
  function Gathered(hashed: seq<Slot>, members: seq<set<Row>>, key: Key): set<Row>
    requires |hashed| == |members|
  {
    set i, r | 0 <= i < |hashed| && SecondKey(hashed[i].group.row) == key && r in members[i] :: r
  }

  function GatheredBy(hashed: seq<Slot>, members: seq<set<Row>>): Key -> set<Row>
    requires |hashed| == |members|
  {
    k => Gathered(hashed, members, k)
  }

  lemma GatheredNext(hashed: seq<Slot>, members: seq<set<Row>>, key: Key)
    requires |hashed| == |members| && hashed != []
    ensures var n := |hashed| - 1;
            Gathered(hashed, members, key)
            == Gathered(hashed[..n], members[..n], key)
             + if SecondKey(hashed[n].group.row) == key then members[n] else {}
  {
    var n := |hashed| - 1;
    hide SecondKey;
    forall r ensures r in Gathered(hashed, members, key)
                     <==> (|| r in Gathered(hashed[..n], members[..n], key)
                           || (SecondKey(hashed[n].group.row) == key && r in members[n]))
    {
      if r in Gathered(hashed[..n], members[..n], key) {
        var i :| 0 <= i < n && SecondKey(hashed[..n][i].group.row) == key && r in members[..n][i];
        assert SecondKey(hashed[i].group.row) == key && r in members[i];
      }
      if r in Gathered(hashed, members, key) {
        var i :| 0 <= i < |hashed| && SecondKey(hashed[i].group.row) == key && r in members[i];
        assert i < n ==> hashed[..n][i] == hashed[i] && members[..n][i] == members[i];
      }
    }
  }

  /** A row without an episode key never overwrites another: rows shown have distinct ids. */
  lemma RowKeyNew(hashed: seq<Slot>)
    requires DistinctShown(hashed) && hashed != []
    ensures var n := |hashed| - 1;
            EpisodeGroupKey(hashed[n].group.row).None? ==> SecondKey(hashed[n].group.row) !in SecondKeys(hashed[..n])
  {
    var n := |hashed| - 1;
    var keys := SecondKeys(hashed[..n]);
    forall j | 0 <= j < n && EpisodeGroupKey(hashed[n].group.row).None?
      ensures keys[j] != SecondKey(hashed[n].group.row)
    {
      assert hashed[..n][j] == hashed[j] && hashed[j].group.row.id != hashed[n].group.row.id;
    }
  }

  lemma {:induction false} EpisodeGroupsKeys(hashed: seq<Slot>)
    requires DistinctShown(hashed)
    ensures Keys(EpisodeGroups(hashed)) == FirstSeen(SecondKeys(hashed))
    decreases |hashed|
  {
    if hashed != [] {
      var n := |hashed| - 1;
      var g := hashed[n].group;
      ShownPrefix(hashed);
      EpisodeGroupsKeys(hashed[..n]);
      EpisodeGroupsLast(hashed);
      hide DistinctShown, Enter, SecondKey, EpisodeGroups, FirstSeen;
      EnterKeys(EpisodeGroups(hashed[..n]), SecondKeys(hashed[..n]), SecondKey(g.row), g.row, g);
    }
  }

  lemma EpisodeGroupsLast(hashed: seq<Slot>)
    requires DistinctShown(hashed) && hashed != []
    requires Keys(EpisodeGroups(hashed[..|hashed| - 1])) == FirstSeen(SecondKeys(hashed[..|hashed| - 1]))
    ensures var n := |hashed| - 1;
            var g := hashed[n].group;
            EpisodeGroups(hashed) == Enter(EpisodeGroups(hashed[..n]), SecondKey(g.row), g.row, g)
  {
    RowKeyNew(hashed);
    var n := |hashed| - 1;
    KeyIn(EpisodeGroups(hashed[..n]), SecondKey(hashed[n].group.row));
    hide DistinctShown, Enter, SecondKey, Find;
  }

  lemma EpisodeStep(hashed: seq<Slot>, members: seq<set<Row>>, slots: seq<Slot>)
    requires hashed != [] && |hashed| == |members| && Shows(hashed[|hashed| - 1].group, members[|hashed| - 1])
    requires Keys(slots) == FirstSeen(SecondKeys(hashed[..|hashed| - 1]))
    requires DistinctKeys(slots) && AllShow(slots, GatheredBy(hashed[..|hashed| - 1], members[..|hashed| - 1]))
    ensures var g := hashed[|hashed| - 1].group;
            AllShow(Enter(slots, SecondKey(g.row), g.row, g), GatheredBy(hashed, members))
  {
    var n := |hashed| - 1;
    var init, g := hashed[..n], hashed[n].group;
    var key := SecondKey(g.row);
    assert key in Keys(slots) <==> key in SecondKeys(init);
    hide Shows, Enter, SecondKey, Gathered, AllShow, DistinctKeys, Keys, SecondKeys, FirstSeen;
    forall k
      ensures Gathered(hashed, members, k) == Gathered(init, members[..n], k) + if k == key then members[n] else {}
    {
      GatheredNext(hashed, members, k);
    }
    if key !in SecondKeys(init) { NoneGathered(init, members[..n], key); }
    EnterShows(slots, key, g, members[n], GatheredBy(init, members[..n]), GatheredBy(hashed, members));
  }

  lemma {:induction false} EpisodeGroupsShow(hashed: seq<Slot>, members: seq<set<Row>>)
    requires DistinctShown(hashed) && |hashed| == |members|
    requires forall i :: 0 <= i < |hashed| ==> Shows(hashed[i].group, members[i])
    ensures AllShow(EpisodeGroups(hashed), GatheredBy(hashed, members))
    decreases |hashed|
  {
    hide *;
    if hashed == [] {
      NoneShown(GatheredBy(hashed, members));
    } else {
      var init := hashed[..|hashed| - 1];
      ShownPrefix(hashed);
      EpisodeGroupsShow(init, members[..|hashed| - 1]);
      EpisodeGroupsKeys(init);
      EpisodeGroupsLast(hashed);
      KeysDistinct(EpisodeGroups(init), SecondKeys(init));
      EpisodeStep(hashed, members, EpisodeGroups(init));
    }
  }

  lemma ShownPrefix(hashed: seq<Slot>)
    requires hashed != [] && DistinctShown(hashed)
    ensures DistinctShown(hashed[..|hashed| - 1])
  {
  }

  lemma NoneGathered(hashed: seq<Slot>, members: seq<set<Row>>, key: Key)
    requires |hashed| == |members| && key !in SecondKeys(hashed)
    ensures Gathered(hashed, members, key) == {}
  {
    forall i | 0 <= i < |hashed|
      ensures SecondKey(hashed[i].group.row) != key
    {
      assert SecondKeys(hashed)[i] in SecondKeys(hashed);
    }
  }

  // ------------------------------------------------------------------- both phases

  lemma SameRowKey(a: Row, b: Row)
    requires SameRow(a, b)
    ensures HashKey(a) == HashKey(b) && a.id == b.id && a.sub == b.sub
  {
  }

  lemma SameId(rows: seq<Row>, a: Row, b: Row)
    requires DistinctIds(rows) && a in rows && b in rows && a.id == b.id
    ensures a == b
  {
  }

  /** A hash group shows a row of its own key. */
  lemma ShownRow(rows: seq<Row>, i: nat) returns (own: Row)
    requires i < |HashGroups(rows)|
    ensures own in rows && SameRow(HashGroups(rows)[i].group.row, own) && HashKey(own) == HashGroups(rows)[i].key
  {
    HashGroupsShow(rows);
    var slot := HashGroups(rows)[i];
    var m := RowsWith(rows, slot.key);
    assert Shows(slot.group, m);
    own :| own in m && SameRow(slot.group.row, own) && ErrorFrom(slot.group.row, own, m);
  }

  lemma ShownDistinct(rows: seq<Row>)
    requires DistinctIds(rows)
    ensures DistinctShown(HashGroups(rows))
  {
    var slots := HashGroups(rows);
    HashGroupsKeys(rows);
    hide HashGroups, HashKey, FirstSeen;
    forall i, j | 0 <= i < j < |slots| ensures slots[i].group.row.id != slots[j].group.row.id {
      var a := ShownRow(rows, i);
      var b := ShownRow(rows, j);
      SameRowKey(slots[i].group.row, a);
      SameRowKey(slots[j].group.row, b);
      if a.id == b.id { SameId(rows, a, b); }
      assert Keys(slots)[i] != Keys(slots)[j];
    }
  }

  /** The hash group that a row is merged into. */
  function GroupIndex(rows: seq<Row>, r: Row): (i: nat)
    requires r in rows
    ensures i < |HashGroups(rows)| && HashGroups(rows)[i].key == HashKey(r)
  {
    HashGroupsKeys(rows);
    KeySeen(rows, r);
    EnterKeys(HashGroups(rows), HashKeys(rows), HashKey(r), r, AsGroup(r));
    Find(HashGroups(rows), HashKey(r))
  }

  /** The class of a row in the final listing. */
  function FinalKey(rows: seq<Row>, r: Row): Key
    requires r in rows
  {
    SecondKey(HashGroups(rows)[GroupIndex(rows, r)].group.row)
  }

  function FinalKeys(rows: seq<Row>, part: seq<Row>): (r: seq<Key>)
    requires forall x :: x in part ==> x in rows
    ensures |r| == |part| && forall i :: 0 <= i < |part| ==> r[i] == FinalKey(rows, part[i])
  {
    if part == [] then []
    else
      assert part[|part| - 1] in part;
      FinalKeys(rows, part[..|part| - 1]) + [FinalKey(rows, part[|part| - 1])]
  }

  function Class(rows: seq<Row>, key: Key): set<Row> { set r | r in rows && FinalKey(rows, r) == key }

  function ClassOf(rows: seq<Row>): Key -> set<Row> { k => Class(rows, k) }

  function Merged(rows: seq<Row>): seq<Slot> { EpisodeGroups(HashGroups(rows)) }

  function Members(rows: seq<Row>): (m: seq<set<Row>>)
    ensures |m| == |HashGroups(rows)| && forall i :: 0 <= i < |m| ==> m[i] == RowsWith(rows, HashGroups(rows)[i].key)
  {
    seq(|HashGroups(rows)|, i requires 0 <= i < |HashGroups(rows)| => RowsWith(rows, HashGroups(rows)[i].key))
  }

  lemma OneIndex(rows: seq<Row>, r: Row, i: nat)
    requires r in rows && i < |HashGroups(rows)| && HashGroups(rows)[i].key == HashKey(r)
    ensures i == GroupIndex(rows, r)
  {
    HashGroupsKeys(rows);
    var slots, j := HashGroups(rows), GroupIndex(rows, r);
    assert Keys(slots)[i] == Keys(slots)[j];
  }

  lemma ClassGathered(rows: seq<Row>, key: Key)
    ensures Class(rows, key) == Gathered(HashGroups(rows), Members(rows), key)
  {
    var slots := HashGroups(rows);
    hide HashGroups, HashKey, SecondKey;
    forall r | r in Class(rows, key) ensures r in Gathered(slots, Members(rows), key) {
      var i := GroupIndex(rows, r);
      assert r in Members(rows)[i];
    }
    forall r | r in Gathered(slots, Members(rows), key) ensures r in Class(rows, key) {
      var i :| 0 <= i < |slots| && SecondKey(slots[i].group.row) == key && r in Members(rows)[i];
      OneIndex(rows, r, i);
    }
  }

  /** Each merged class shows its maximum by (status rank, id), with ids and episodes of its own rows only. */
  lemma MergedShows(rows: seq<Row>)
    requires DistinctIds(rows)
    ensures AllShow(Merged(rows), ClassOf(rows))
  {
    var slots := HashGroups(rows);
    HashGroupsShow(rows);
    ShownDistinct(rows);
    hide Shows, HashGroups, EpisodeGroups, Class, Gathered;
    EpisodeGroupsShow(slots, Members(rows));
    forall k ensures Class(rows, k) == Gathered(slots, Members(rows), k) { ClassGathered(rows, k); }
  }

  function Mapped(f: map<Key, Key>, s: seq<Key>): (r: seq<Key>)
    requires forall x :: x in s ==> x in f
    ensures |r| == |s| && forall i :: 0 <= i < |s| ==> r[i] == f[s[i]]
  {
    if s == [] then []
    else
      assert s[|s| - 1] in s;
      Mapped(f, s[..|s| - 1]) + [f[s[|s| - 1]]]
  }

  /** Dropping repeats before renaming changes nothing once repeats are dropped after it. */
  lemma {:induction false} FirstSeenMapped(f: map<Key, Key>, s: seq<Key>)
    requires forall x :: x in s ==> x in f
    ensures FirstSeen(Mapped(f, FirstSeen(s))) == FirstSeen(Mapped(f, s))
    decreases |s|
  {
    if s != [] {
      var init, x := s[..|s| - 1], s[|s| - 1];
      assert s == init + [x] && x in s;
      FirstSeenMapped(f, init);
      FirstSeenPush(init, x);
      var a, b := Mapped(f, init), Mapped(f, FirstSeen(init));
      assert f[x] in b <==> f[x] in FirstSeen(b);
      assert f[x] in a <==> f[x] in FirstSeen(a);
      MappedPush(f, init, x);
      FirstSeenPush(a, f[x]);
      if x !in init {
        MappedPush(f, FirstSeen(init), x);
        FirstSeenPush(b, f[x]);
      }
    }
  }

  lemma MappedPush(f: map<Key, Key>, s: seq<Key>, x: Key)
    requires x in f && forall y :: y in s ==> y in f
    ensures forall y :: y in s + [x] ==> y in f
    ensures Mapped(f, s + [x]) == Mapped(f, s) + [f[x]] && (x in s ==> f[x] in Mapped(f, s))
  {
    if x in s {
      var i :| 0 <= i < |s| && s[i] == x;
      assert Mapped(f, s)[i] == f[x];
    }
  }

  /** Classes are listed in the order in which their first rows occur, each once. */
  lemma MergedOrder(rows: seq<Row>)
    requires DistinctIds(rows)
    ensures Keys(Merged(rows)) == FirstSeen(FinalKeys(rows, rows))
  {
    ShownDistinct(rows);
    EpisodeGroupsKeys(HashGroups(rows));
    hide HashGroups, EpisodeGroups, HashKey, SecondKey, FirstSeen, FinalKey;
    OrderVia(rows, Renaming(rows, rows));
  }

  function Renaming(rows: seq<Row>, part: seq<Row>): (f: map<Key, Key>)
    requires forall x :: x in part ==> x in rows
    ensures forall r :: r in part ==> HashKey(r) in f && f[HashKey(r)] == FinalKey(rows, r)
  {
    if part == [] then map[]
    else
      assert part[0] in part;
      Renaming(rows, part[1..])[HashKey(part[0]) := FinalKey(rows, part[0])]
  }

  ghost predicate Renames(rows: seq<Row>, f: map<Key, Key>) {
    forall r :: r in rows ==> HashKey(r) in f && f[HashKey(r)] == FinalKey(rows, r)
  }

  lemma HashKeysRenamed(rows: seq<Row>, f: map<Key, Key>)
    requires Renames(rows, f)
    ensures forall x :: x in HashKeys(rows) ==> x in f
    ensures Mapped(f, HashKeys(rows)) == FinalKeys(rows, rows)
  {
    hide HashKey, FinalKey;
    forall x | x in HashKeys(rows) ensures x in f {
      var i :| 0 <= i < |rows| && HashKeys(rows)[i] == x;
      assert rows[i] in rows;
    }
    forall i | 0 <= i < |rows| ensures f[HashKey(rows[i])] == FinalKey(rows, rows[i]) { assert rows[i] in rows; }
  }

  lemma ShownRenamed(rows: seq<Row>, f: map<Key, Key>, i: nat)
    requires Renames(rows, f) && i < |HashGroups(rows)|
    ensures var slot := HashGroups(rows)[i];
            slot.key in f && f[slot.key] == SecondKey(slot.group.row)
  {
    hide HashGroups, HashKey, SecondKey;
    var own := ShownRow(rows, i);
    OneIndex(rows, own, i);
  }

  lemma SecondKeysRenamed(slots: seq<Slot>, once: seq<Key>, f: map<Key, Key>)
    requires Keys(slots) == once
    requires forall i :: 0 <= i < |slots| ==> slots[i].key in f && f[slots[i].key] == SecondKey(slots[i].group.row)
    ensures forall x :: x in once ==> x in f
    ensures Mapped(f, once) == SecondKeys(slots)
  {
    hide SecondKey;
  }

  lemma OrderVia(rows: seq<Row>, f: map<Key, Key>)
    requires Renames(rows, f)
    ensures FirstSeen(SecondKeys(HashGroups(rows))) == FirstSeen(FinalKeys(rows, rows))
  {
    hide *;
    var slots := HashGroups(rows);
    forall i | 0 <= i < |slots| ensures slots[i].key in f && f[slots[i].key] == SecondKey(slots[i].group.row) {
      ShownRenamed(rows, f, i);
    }
    HashGroupsKeys(rows);
    SecondKeysRenamed(slots, FirstSeen(HashKeys(rows)), f);
    HashKeysRenamed(rows, f);
    FirstSeenMapped(f, HashKeys(rows));
  }

  /** No class mixes subscriptions. */
  lemma OneSubscription(rows: seq<Row>, a: Row, b: Row)
    requires DistinctIds(rows) && a in rows && b in rows && FinalKey(rows, a) == FinalKey(rows, b)
    ensures a.sub == b.sub
  {
    var i, j := GroupIndex(rows, a), GroupIndex(rows, b);
    var p := ShownRow(rows, i);
    var q := ShownRow(rows, j);
    ShownDistinct(rows);
    SameRowKey(HashGroups(rows)[i].group.row, p);
    SameRowKey(HashGroups(rows)[j].group.row, q);
    assert i == j || p.id != q.id;
  }

  /** No id is shown in two groups. */
  lemma GroupIdsDisjoint(rows: seq<Row>, i: nat, j: nat, x: int)
    requires DistinctIds(rows) && i < j < |Merged(rows)|
    requires x in Merged(rows)[i].group.ids
    ensures x !in Merged(rows)[j].group.ids
  {
    MergedShows(rows);
    MergedOrder(rows);
    var out := Merged(rows);
    KeysDistinct(out, FinalKeys(rows, rows));
    hide Merged, FinalKey, FirstSeen;
    if x in out[j].group.ids {
      assert out[i] in out && out[j] in out;
      var a :| a in Class(rows, out[i].key) && a.id == x;
      var b :| b in Class(rows, out[j].key) && b.id == x;
      SameId(rows, a, b);
    }
  }

  // --------------------------------------------------- which ids are listed

  /** Merging rows one by one into a group. */
  function Folded(g: Group, items: seq<Row>): Group {
    if items == [] then g else MergeGroup(Folded(g, items[..|items| - 1]), items[|items| - 1])
  }

  /** The row in the lead: a newcomer takes over if it outranks the best so far. */
  function Lead(r: Row, items: seq<Row>): Row {
    if items == [] then r
    else
      var best, x := Lead(r, items[..|items| - 1]), items[|items| - 1];
      if Outranks(x, best) then x else best
  }

  function Ids(items: seq<Row>): (r: seq<int>)
    ensures |r| == |items| && forall i :: 0 <= i < |items| ==> r[i] == items[i].id
  {
    if items == [] then [] else Ids(items[..|items| - 1]) + [items[|items| - 1].id]
  }

  predicate NoRepeats(s: seq<int>) { forall i, j :: 0 <= i < j < |s| ==> s[i] != s[j] }

  lemma {:induction false} FirstSeenAll(s: seq<int>)
    requires NoRepeats(s)
    ensures FirstSeen(s) == s
    decreases |s|
  {
    if s != [] {
      FirstSeenAll(s[..|s| - 1]);
      assert s == s[..|s| - 1] + [s[|s| - 1]];
    }
  }

  /** What one merge does to distinct ids: the newcomer is added, or only it and the old lead remain. */
  lemma MergeIds(g: Group, x: Row)
    requires NoRepeats(g.ids) && x.id !in g.ids && g.row.id in g.ids
    ensures SameRow(MergeGroup(g, x).row, if Outranks(x, g.row) then x else g.row)
    ensures MergeGroup(g, x).ids == if Outranks(x, g.row) then [x.id, g.row.id] else g.ids + [x.id]
  {
    hide Rank;
    if Outranks(x, g.row) {
      FirstSeenAll([x.id] + [g.row.id]);
    } else {
      FirstSeenAll(g.ids + [x.id]);
    }
  }

  lemma OutranksSame(x: Row, a: Row, b: Row)
    requires SameRow(a, b)
    ensures Outranks(x, a) == Outranks(x, b) && a.id == b.id
  {
  }

  /** No newcomer takes over, except the first one from a group of a single id. */
  predicate NoLateLead(g: Group, items: seq<Row>) {
    forall i {:trigger items[i]} :: 0 <= i < |items| && Outranks(items[i], Lead(g.row, items[..i])) ==>
        i == 0 && |g.ids| == 1
  }

  ghost predicate AllListed(g: Group, items: seq<Row>, ids: seq<int>) {
    forall x :: x in g.ids || x in Ids(items) ==> x in ids
  }

  lemma NoLateLeadLast(g: Group, init: seq<Row>, x: Row)
    ensures NoLateLead(g, init + [x])
            <==> NoLateLead(g, init) && (Outranks(x, Lead(g.row, init)) ==> init == [] && |g.ids| == 1)
  {
    hide Outranks, Lead;
    var items, n := init + [x], |init|;
    assert forall i :: 0 <= i < n ==> items[i] == init[i] && items[..i] == init[..i];
    assert items[n] == x && items[..n] == init;
  }

  /** Ids are distinct and come from the group and the items; all are listed exactly if nobody takes the lead late. */
  ghost predicate FoldOk(g: Group, items: seq<Row>, f: Group) {
    && SameRow(f.row, Lead(g.row, items)) && f.row.id in f.ids && NoRepeats(f.ids)
    && (forall x :: x in f.ids ==> x in g.ids || x in Ids(items))
    && (AllListed(g, items, f.ids) <==> NoLateLead(g, items))
  }

  lemma {:induction false} FoldedIds(g: Group, items: seq<Row>)
    requires NoRepeats(g.ids + Ids(items)) && g.row.id in g.ids
    ensures FoldOk(g, items, Folded(g, items))
    decreases |items|
  {
    if items == [] {
      assert g.ids + Ids(items) == g.ids;
    } else {
      var n := |items| - 1;
      var init, x := items[..n], items[n];
      assert items == init + [x] && g.ids + Ids(items) == g.ids + Ids(init) + [x.id];
      assert Folded(g, items) == MergeGroup(Folded(g, init), x);
      hide *;
      DistinctLast(g.ids + Ids(init), x.id);
      FoldedIds(g, init);
      FoldedStep(g, init, x, Folded(g, init));
    }
  }

  lemma DistinctLast(s: seq<int>, x: int)
    requires NoRepeats(s + [x])
    ensures NoRepeats(s) && x !in s
  {
    forall i | 0 <= i < |s| ensures (s + [x])[i] == s[i] && s[i] != x { assert (s + [x])[|s|] == x; }
  }

  lemma LeadLast(r: Row, init: seq<Row>, x: Row)
    ensures Lead(r, init + [x]) == if Outranks(x, Lead(r, init)) then x else Lead(r, init)
    ensures Ids(init + [x]) == Ids(init) + [x.id]
  {
    hide Outranks;
    assert (init + [x])[..|init|] == init;
  }

  lemma FoldedStep(g: Group, init: seq<Row>, x: Row, f: Group)
    requires NoRepeats(g.ids + Ids(init)) && g.row.id in g.ids && x.id !in g.ids + Ids(init)
    requires FoldOk(g, init, f)
    ensures FoldOk(g, init + [x], MergeGroup(f, x))
  {
    hide MergeGroup, Outranks, Lead, NoLateLead, Ids, SameRow, NoRepeats, AllListed;
    var lead := Lead(g.row, init);
    LeadLast(g.row, init, x);
    OutranksSame(x, f.row, lead);
    NoLateLeadLast(g, init, x);
    MergeIds(f, x);
    MergedOk(f, x, lead);
    ListedStep(g, init, x, f.ids, f.row.id, Outranks(x, lead));
  }

  lemma MergedOk(f: Group, x: Row, lead: Row)
    requires NoRepeats(f.ids) && x.id !in f.ids && f.row.id in f.ids && SameRow(f.row, lead)
    ensures var next := MergeGroup(f, x);
            && SameRow(next.row, if Outranks(x, lead) then x else lead) && next.row.id in next.ids
            && NoRepeats(next.ids)
  {
    MergeIds(f, x);
    OutranksSame(x, f.row, lead);
    hide MergeGroup, Outranks;
  }

  /** Whether all ids are still listed after one more merge. */
  lemma ListedStep(g: Group, init: seq<Row>, x: Row, ids: seq<int>, lead: int, won: bool)
    requires NoRepeats(g.ids + Ids(init)) && g.ids != [] && x.id !in g.ids + Ids(init)
    requires lead in ids && forall y :: y in ids ==> y in g.ids || y in Ids(init)
    ensures AllListed(g, init + [x], if won then [x.id, lead] else ids + [x.id])
            <==> if won then init == [] && |g.ids| == 1 else AllListed(g, init, ids)
    ensures won && init == [] && |g.ids| == 1 ==> AllListed(g, init, ids)
  {
    LeadLast(x, init, x);
    OnlyTwoListed(g, init, x.id, lead);
    hide Ids, NoRepeats;
    ListedMore(g, init, x, ids);
  }

  lemma ListedMore(g: Group, init: seq<Row>, x: Row, ids: seq<int>)
    requires Ids(init + [x]) == Ids(init) + [x.id] && x.id !in g.ids + Ids(init)
    ensures AllListed(g, init + [x], ids + [x.id]) <==> AllListed(g, init, ids)
  {
  }

  /** Only the newcomer and the old lead remain: nothing is lost exactly if the old lead was alone. */
  lemma OnlyTwoListed(g: Group, init: seq<Row>, x: int, lead: int)
    requires NoRepeats(g.ids + Ids(init)) && g.ids != [] && x !in g.ids + Ids(init) && lead in g.ids + Ids(init)
    ensures (forall y :: y in g.ids || y in Ids(init) || y == x ==> y in [x, lead]) <==> init == [] && |g.ids| == 1
  {
    var all := g.ids + Ids(init);
    if |all| >= 2 {
      assert all[0] in all && all[1] in all && all[0] != all[1];
    } else {
      assert |all| == 1 && all[0] == lead;
    }
  }

  /** The rows of a hash group, in order. */
  function RowsOf(rows: seq<Row>, key: Key): (r: seq<Row>)
    ensures forall x :: x in r <==> x in rows && HashKey(x) == key
  {
    if rows == [] then []
    else
      assert rows == rows[..|rows| - 1] + [rows[|rows| - 1]];
      var init := RowsOf(rows[..|rows| - 1], key);
      if HashKey(rows[|rows| - 1]) == key then init + [rows[|rows| - 1]] else init
  }

  /** The hash groups that meet under a second key, in order. */
  function Fed(hashed: seq<Slot>, key: Key): (r: seq<Slot>)
    ensures forall x :: x in r <==> x in hashed && SecondKey(x.group.row) == key
  {
    if hashed == [] then []
    else
      assert hashed == hashed[..|hashed| - 1] + [hashed[|hashed| - 1]];
      var init := Fed(hashed[..|hashed| - 1], key);
      if SecondKey(hashed[|hashed| - 1].group.row) == key then init + [hashed[|hashed| - 1]] else init
  }

  function Shown(slots: seq<Slot>): (r: seq<Row>)
    ensures |r| == |slots| && forall i :: 0 <= i < |slots| ==> r[i] == slots[i].group.row
  {
    if slots == [] then [] else Shown(slots[..|slots| - 1]) + [slots[|slots| - 1].group.row]
  }

  function FoldRows(part: seq<Row>): Option<Group> {
    if part == [] then None else Some(Folded(AsGroup(part[0]), part[1..]))
  }

  function FoldSlots(fed: seq<Slot>): Option<Group> {
    if fed == [] then None else Some(Folded(fed[0].group, Shown(fed[1..])))
  }

  function RowFolds(rows: seq<Row>): Key -> Option<Group> { k => FoldRows(RowsOf(rows, k)) }

  function SlotFolds(hashed: seq<Slot>): Key -> Option<Group> { k => FoldSlots(Fed(hashed, k)) }

  ghost predicate AllAre(slots: seq<Slot>, groups: Key -> Option<Group>) {
    && (forall i :: 0 <= i < |slots| ==> groups(slots[i].key) == Some(slots[i].group))
    && (forall k :: k !in Keys(slots) ==> groups(k) == None)
  }

  lemma EnterAre(slots: seq<Slot>, key: Key, item: Row, first: Group, before: Key -> Option<Group>,
                 after: Key -> Option<Group>)
    requires DistinctKeys(slots) && AllAre(slots, before)
    requires after(key) == Some(if before(key).None? then first else MergeGroup(before(key).value, item))
    requires forall k :: k != key ==> after(k) == before(k)
    ensures AllAre(Enter(slots, key, item, first), after)
  {
    KeyIn(slots, key);
    hide MergeGroup;
    var i := Find(slots, key);
    if i < |slots| {
      KeysPut(slots, i, MergeGroup(slots[i].group, item));
    } else {
      KeysPush(slots, Slot(key, first));
    }
  }

  lemma FoldRowsPush(part: seq<Row>, r: Row)
    ensures FoldRows(part + [r]) == Some(if part == [] then AsGroup(r) else MergeGroup(FoldRows(part).value, r))
  {
    hide MergeGroup;
    if part != [] {
      assert (part + [r])[1..] == part[1..] + [r];
      assert (part[1..] + [r])[..|part| - 1] == part[1..];
    }
  }

  lemma RowsOfLast(init: seq<Row>, r: Row, k: Key)
    ensures RowsOf(init + [r], k) == if HashKey(r) == k then RowsOf(init, k) + [r] else RowsOf(init, k)
  {
    assert (init + [r])[..|init|] == init;
  }

  lemma RowFoldsNext(init: seq<Row>, r: Row)
    ensures var was := RowFolds(init)(HashKey(r));
            RowFolds(init + [r])(HashKey(r)) == Some(if was.None? then AsGroup(r) else MergeGroup(was.value, r))
    ensures forall k :: k != HashKey(r) ==> RowFolds(init + [r])(k) == RowFolds(init)(k)
  {
    hide MergeGroup, HashKey, FoldRows, RowsOf, AsGroup;
    forall k | k != HashKey(r) ensures RowFolds(init + [r])(k) == RowFolds(init)(k) { RowsOfLast(init, r, k); }
    RowsOfLast(init, r, HashKey(r));
    FoldRowsPush(RowsOf(init, HashKey(r)), r);
    FoldRowsSome(RowsOf(init, HashKey(r)));
  }

  lemma FoldRowsSome(part: seq<Row>)
    ensures FoldRows(part).None? <==> part == []
  {
  }

  /** A hash group is its rows, merged one by one. */
  lemma {:induction false} HashGroupsFold(rows: seq<Row>)
    ensures AllAre(HashGroups(rows), RowFolds(rows))
    decreases |rows|
  {
    if rows == [] {
      assert HashGroups(rows) == [];
    } else {
      var init, r := rows[..|rows| - 1], rows[|rows| - 1];
      hide *;
      HashGroupsFold(init);
      HashGroupsKeys(init);
      KeysDistinct(HashGroups(init), HashKeys(init));
      RowFoldsNext(init, r);
      HashGroupsLast(rows);
      EnterAre(HashGroups(init), HashKey(r), r, AsGroup(r), RowFolds(init), RowFolds(rows));
    }
  }

  lemma FoldSlotsPush(fed: seq<Slot>, x: Slot)
    ensures FoldSlots(fed + [x]) == Some(if fed == [] then x.group else MergeGroup(FoldSlots(fed).value, x.group.row))
  {
    hide MergeGroup;
    if fed != [] {
      assert (fed + [x])[1..] == fed[1..] + [x];
      assert (fed[1..] + [x])[..|fed| - 1] == fed[1..];
      assert Shown(fed[1..] + [x])[..|fed| - 1] == Shown(fed[1..]);
    }
  }

  lemma FoldSlotsSome(fed: seq<Slot>)
    ensures FoldSlots(fed).None? <==> fed == []
  {
  }

  lemma FedLast(hashed: seq<Slot>, k: Key)
    requires hashed != []
    ensures var x, init := hashed[|hashed| - 1], hashed[..|hashed| - 1];
            Fed(hashed, k) == if SecondKey(x.group.row) == k then Fed(init, k) + [x] else Fed(init, k)
  {
    hide SecondKey;
  }

  lemma SlotFoldsNext(hashed: seq<Slot>)
    requires hashed != []
    ensures var x, init := hashed[|hashed| - 1], hashed[..|hashed| - 1];
            var key := SecondKey(x.group.row);
            var was := SlotFolds(init)(key);
            && SlotFolds(hashed)(key) == Some(if was.None? then x.group else MergeGroup(was.value, x.group.row))
            && forall k :: k != key ==> SlotFolds(hashed)(k) == SlotFolds(init)(k)
  {
    hide MergeGroup, SecondKey, FoldSlots, Fed;
    var x, init := hashed[|hashed| - 1], hashed[..|hashed| - 1];
    var key := SecondKey(x.group.row);
    forall k | k != key ensures SlotFolds(hashed)(k) == SlotFolds(init)(k) { FedLast(hashed, k); }
    FedLast(hashed, key);
    FoldSlotsPush(Fed(init, key), x);
    FoldSlotsSome(Fed(init, key));
  }

  /** A merged row is its first hash group, with the rows that the later ones show merged in one by one. */
  lemma {:induction false} EpisodeGroupsFold(hashed: seq<Slot>)
    requires DistinctShown(hashed)
    ensures AllAre(EpisodeGroups(hashed), SlotFolds(hashed))
    decreases |hashed|
  {
    if hashed == [] {
      assert EpisodeGroups(hashed) == [];
    } else {
      var init, x := hashed[..|hashed| - 1], hashed[|hashed| - 1];
      hide *;
      ShownPrefix(hashed);
      EpisodeGroupsFold(init);
      EpisodeGroupsKeys(init);
      EpisodeGroupsLast(hashed);
      KeysDistinct(EpisodeGroups(init), SecondKeys(init));
      SlotFoldsNext(hashed);
      EnterAre(EpisodeGroups(init), SecondKey(x.group.row), x.group.row, x.group, SlotFolds(init), SlotFolds(hashed));
    }
  }

  // -------------------------------------------------------- rows of a merged class

  /** The rows of a merged class: hash group by hash group. */
  function ClassRows(rows: seq<Row>, fed: seq<Slot>): (r: seq<Row>)
    ensures forall x :: x in r <==> x in rows && exists slot :: slot in fed && slot.key == HashKey(x)
  {
    if fed == [] then []
    else
      assert fed == fed[..|fed| - 1] + [fed[|fed| - 1]];
      ClassRows(rows, fed[..|fed| - 1]) + RowsOf(rows, fed[|fed| - 1].key)
  }

  lemma {:induction false} RowsOfDistinct(rows: seq<Row>, key: Key)
    requires DistinctIds(rows)
    ensures DistinctIds(RowsOf(rows, key))
    decreases |rows|
  {
    hide HashKey;
    if rows != [] {
      var init, r := rows[..|rows| - 1], rows[|rows| - 1];
      RowsOfDistinct(init, key);
      forall x | x in init ensures x.id != r.id {}
      forall i | 0 <= i < |RowsOf(init, key)|
        ensures RowsOf(init, key)[i].id != r.id
      {
        assert RowsOf(init, key)[i] in init;
      }
    }
  }

  lemma {:induction false} FedDistinct(hashed: seq<Slot>, key: Key)
    requires DistinctKeys(hashed)
    ensures DistinctKeys(Fed(hashed, key))
    decreases |hashed|
  {
    hide SecondKey;
    if hashed != [] {
      var init, x := hashed[..|hashed| - 1], hashed[|hashed| - 1];
      FedDistinct(init, key);
      forall i | 0 <= i < |Fed(init, key)| ensures Fed(init, key)[i].key != x.key { assert Fed(init, key)[i] in init; }
    }
  }

  lemma {:induction false} ClassRowsDistinct(rows: seq<Row>, fed: seq<Slot>)
    requires DistinctIds(rows) && DistinctKeys(fed)
    ensures DistinctIds(ClassRows(rows, fed))
    decreases |fed|
  {
    hide HashKey;
    if fed != [] {
      var init, x := fed[..|fed| - 1], fed[|fed| - 1];
      ClassRowsDistinct(rows, init);
      RowsOfDistinct(rows, x.key);
      var a, b := ClassRows(rows, init), RowsOf(rows, x.key);
      forall i, j | 0 <= i < |a| && 0 <= j < |b| ensures a[i].id != b[j].id {
        assert a[i] in a && b[j] in b;
        if a[i].id == b[j].id { SameId(rows, a[i], b[j]); }
      }
    }
  }

  lemma {:induction false} FoldedConcat(g: Group, a: seq<Row>, b: seq<Row>)
    ensures Folded(g, a + b) == Folded(Folded(g, a), b)
    decreases |b|
  {
    hide MergeGroup;
    if b == [] {
      assert a + b == a;
    } else {
      var n := |b| - 1;
      FoldedConcat(g, a, b[..n]);
      assert (a + b)[..|a| + n] == a + b[..n];
    }
  }

  /** Every hash group after the first is a single row. */
  predicate LaterSingle(rows: seq<Row>, fed: seq<Slot>) {
    forall i {:trigger fed[i]} :: 1 <= i < |fed| ==> |RowsOf(rows, fed[i].key)| == 1
  }

  ghost predicate Folds(rows: seq<Row>, fed: seq<Slot>) {
    forall i :: 0 <= i < |fed| ==> FoldRows(RowsOf(rows, fed[i].key)) == Some(fed[i].group)
  }

  lemma {:induction false} SinglesShown(rows: seq<Row>, fed: seq<Slot>)
    requires fed != [] && Folds(rows, fed) && LaterSingle(rows, fed)
    ensures ClassRows(rows, fed) == RowsOf(rows, fed[0].key) + Shown(fed[1..])
    decreases |fed|
  {
    var n := |fed| - 1;
    var init := fed[..n];
    assert init + [fed[n]] == fed;
    assert forall i :: 0 <= i < n ==> init[i] == fed[i];
    if n == 0 {
      assert fed == [fed[0]] && fed[1..] == [];
      FirstRows(rows, fed[0]);
      hide *;
    } else {
      SingleShown(rows, fed[n]);
      assert Folds(rows, init) && LaterSingle(rows, init);
      hide *;
      SinglesShown(rows, init);
      SinglesStep(rows, init, fed[n]);
    }
  }

  lemma SinglesStep(rows: seq<Row>, init: seq<Slot>, x: Slot)
    requires init != [] && RowsOf(rows, x.key) == [x.group.row]
    requires ClassRows(rows, init) == RowsOf(rows, init[0].key) + Shown(init[1..])
    ensures ClassRows(rows, init + [x]) == RowsOf(rows, (init + [x])[0].key) + Shown((init + [x])[1..])
  {
    NextRows(rows, init, x);
    hide *;
    assert (init + [x])[1..] == init[1..] + [x];
    var a, b, c := RowsOf(rows, init[0].key), Shown(init[1..]), [x.group.row];
    assert a + b + c == a + (b + c);
  }

  lemma FirstRows(rows: seq<Row>, slot: Slot)
    ensures ClassRows(rows, [slot]) == RowsOf(rows, slot.key) + Shown([])
  {
    hide RowsOf;
    assert [slot][..0] == [];
  }

  lemma NextRows(rows: seq<Row>, init: seq<Slot>, slot: Slot)
    requires init != []
    ensures ClassRows(rows, init + [slot]) == ClassRows(rows, init) + RowsOf(rows, slot.key)
    ensures Shown(init[1..] + [slot]) == Shown(init[1..]) + [slot.group.row]
  {
    hide RowsOf;
    assert (init + [slot])[..|init|] == init;
    assert (init[1..] + [slot])[..|init| - 1] == init[1..];
  }

  lemma SingleShown(rows: seq<Row>, slot: Slot)
    requires FoldRows(RowsOf(rows, slot.key)) == Some(slot.group) && |RowsOf(rows, slot.key)| == 1
    ensures RowsOf(rows, slot.key) == [slot.group.row]
  {
    var part := RowsOf(rows, slot.key);
    assert part == [part[0]] && part[1..] == [];
  }

  /** From the third row on, none takes the lead from those before it. */
  predicate NoLateWinner(all: seq<Row>) {
    forall i {:trigger all[i]} :: 2 <= i < |all| ==> !Outranks(all[i], Lead(all[0], all[1..i]))
  }

  lemma WinnerLead(all: seq<Row>)
    requires all != []
    ensures NoLateWinner(all) <==> NoLateLead(AsGroup(all[0]), all[1..])
  {
    hide Outranks, Lead;
    var rest := all[1..];
    forall i | 0 <= i < |rest| ensures rest[i] == all[i + 1] && rest[..i] == all[1..i + 1] {}
    if NoLateLead(AsGroup(all[0]), rest) {
      forall i | 2 <= i < |all| ensures !Outranks(all[i], Lead(all[0], all[1..i])) { assert rest[i - 1] == all[i]; }
    }
  }

  lemma IdsDistinct(all: seq<Row>)
    requires all != [] && DistinctIds(all)
    ensures NoRepeats(AsGroup(all[0]).ids + Ids(all[1..]))
    ensures forall x :: x in all ==> x.id in AsGroup(all[0]).ids || x.id in Ids(all[1..])
    ensures forall i :: i in AsGroup(all[0]).ids || i in Ids(all[1..]) ==> exists x :: x in all && x.id == i
  {
    var rest := Ids(all[1..]);
    assert forall i :: 0 <= i < |rest| ==> rest[i] == all[i + 1].id;
    forall x | x in all ensures x.id in [all[0].id] || x.id in rest {
      var i :| 0 <= i < |all| && all[i] == x;
      assert i > 0 ==> rest[i - 1] == x.id;
    }
  }

  /** Every row's id is listed. */
  ghost predicate ListsAll(rows: seq<Row>, ids: seq<int>) { forall x :: x in rows ==> x.id in ids }

  lemma FoldRowsConcat(part: seq<Row>, more: seq<Row>)
    requires part != []
    ensures FoldRows(part + more) == Some(Folded(FoldRows(part).value, more))
  {
    hide Folded, MergeGroup, AsGroup;
    assert (part + more)[1..] == part[1..] + more;
    FoldedConcat(AsGroup(part[0]), part[1..], more);
  }

  lemma SinglesFold(rows: seq<Row>, fed: seq<Slot>)
    requires fed != [] && Folds(rows, fed) && LaterSingle(rows, fed)
    ensures ClassRows(rows, fed) != [] && FoldSlots(fed) == FoldRows(ClassRows(rows, fed))
  {
    var part := RowsOf(rows, fed[0].key);
    SinglesShown(rows, fed);
    FoldRowsSome(part);
    assert FoldRows(part) == Some(fed[0].group);
    hide ClassRows, RowsOf, Shown, FoldRows, Folded;
    FoldRowsConcat(part, Shown(fed[1..]));
  }

  /** Rows with distinct ids, merged one by one, list all ids exactly if none takes the lead late. */
  lemma FoldListsAll(all: seq<Row>)
    requires all != [] && DistinctIds(all)
    ensures ListsAll(all, FoldRows(all).value.ids) <==> NoLateWinner(all)
  {
    IdsDistinct(all);
    var g, rest := AsGroup(all[0]), all[1..];
    assert g.row.id in g.ids;
    hide Folded, Ids, AsGroup, NoLateWinner, NoLateLead, Lead, DistinctIds;
    FoldedIds(g, rest);
    WinnerLead(all);
  }

  lemma SinglesListed(rows: seq<Row>, fed: seq<Slot>)
    requires fed != [] && Folds(rows, fed) && LaterSingle(rows, fed) && DistinctIds(rows) && DistinctKeys(fed)
    ensures ListsAll(ClassRows(rows, fed), FoldSlots(fed).value.ids) <==> NoLateWinner(ClassRows(rows, fed))
  {
    hide *;
    SinglesFold(rows, fed);
    ClassRowsDistinct(rows, fed);
    FoldListsAll(ClassRows(rows, fed));
  }

  /** Merging lists no ids but those of the group and of the newcomers. */
  ghost predicate From(g: Group, items: seq<Row>, f: Group) {
    f.row.id in f.ids && forall x :: x in f.ids ==> x in g.ids || x in Ids(items)
  }

  lemma {:induction false} FoldedFrom(g: Group, items: seq<Row>)
    requires g.row.id in g.ids
    ensures From(g, items, Folded(g, items))
    decreases |items|
  {
    if items != [] {
      var init, x := items[..|items| - 1], items[|items| - 1];
      assert items == init + [x] && Folded(g, items) == MergeGroup(Folded(g, init), x);
      hide *;
      FoldedFrom(g, init);
      FromStep(g, init, x, Folded(g, init));
    }
  }

  lemma FromStep(g: Group, init: seq<Row>, x: Row, f: Group)
    requires From(g, init, f)
    ensures From(g, init + [x], MergeGroup(f, x))
  {
    MergedFrom(f, x);
    LeadLast(x, init, x);
    hide MergeGroup, Ids;
  }

  lemma MergedFrom(g: Group, x: Row)
    requires g.row.id in g.ids
    ensures MergeGroup(g, x).row.id in MergeGroup(g, x).ids
    ensures forall y :: y in MergeGroup(g, x).ids ==> y in g.ids || y == x.id
  {
    hide Rank;
  }

  /** A group shows one of its rows, and lists only ids of its rows. */
  ghost predicate ListsOwn(g: Group, part: seq<Row>) {
    && g.row.id in g.ids && (exists own :: own in part && own.id == g.row.id)
    && forall x :: x in g.ids ==> exists m :: m in part && m.id == x
  }

  /** A row of a later hash group that the group does not show is not listed. */
  lemma HiddenLost(rows: seq<Row>, fed: seq<Slot>, i: nat, r: Row)
    requires DistinctIds(rows) && DistinctKeys(fed) && 1 <= i < |fed| && r in RowsOf(rows, fed[i].key)
    requires forall j :: 0 <= j < |fed| ==> ListsOwn(fed[j].group, RowsOf(rows, fed[j].key))
    requires r.id != fed[i].group.row.id
    ensures FoldSlots(fed).Some? && r.id !in FoldSlots(fed).value.ids
  {
    forall j | 0 <= j < |fed| && j != i ensures fed[j].group.row.id != r.id && r.id !in fed[j].group.ids {
      ElsewhereUnlisted(rows, fed, i, j, r);
    }
    assert fed[0].group.row.id in fed[0].group.ids;
    hide *;
    SlotsListed(fed, r.id);
  }

  lemma SlotsListed(fed: seq<Slot>, x: int)
    requires fed != [] && fed[0].group.row.id in fed[0].group.ids
    ensures FoldSlots(fed).Some?
    ensures x in FoldSlots(fed).value.ids ==>
              x in fed[0].group.ids || exists j :: 1 <= j < |fed| && fed[j].group.row.id == x
  {
    FoldedFrom(fed[0].group, Shown(fed[1..]));
    hide Folded;
    var ids := Ids(Shown(fed[1..]));
    if x in ids {
      var j :| 0 <= j < |ids| && ids[j] == x;
      assert fed[j + 1].group.row.id == x;
    }
  }

  lemma ElsewhereUnlisted(rows: seq<Row>, fed: seq<Slot>, i: nat, j: nat, r: Row)
    requires DistinctIds(rows) && DistinctKeys(fed) && i < |fed| && j < |fed| && i != j
    requires r in RowsOf(rows, fed[i].key) && ListsOwn(fed[j].group, RowsOf(rows, fed[j].key))
    ensures fed[j].group.row.id != r.id && r.id !in fed[j].group.ids
  {
    hide HashKey, DistinctIds;
    assert fed[i].key != fed[j].key;
    forall m | m in RowsOf(rows, fed[j].key) ensures m.id != r.id {
      if m.id == r.id { SameId(rows, m, r); }
    }
  }

  /** A later hash group of several rows loses all but the one it shows. */
  lemma ManyLost(rows: seq<Row>, fed: seq<Slot>, i: nat)
    requires DistinctIds(rows) && DistinctKeys(fed) && 1 <= i < |fed| && |RowsOf(rows, fed[i].key)| >= 2
    requires forall j :: 0 <= j < |fed| ==> ListsOwn(fed[j].group, RowsOf(rows, fed[j].key))
    ensures !ListsAll(ClassRows(rows, fed), FoldSlots(fed).value.ids)
  {
    var part := RowsOf(rows, fed[i].key);
    RowsOfDistinct(rows, fed[i].key);
    assert part[0].id != part[1].id;
    var r := if part[0].id == fed[i].group.row.id then part[1] else part[0];
    assert r in part && fed[i] in fed;
    assert r in ClassRows(rows, fed);
    hide *;
    HiddenLost(rows, fed, i, r);
    ListsNot(ClassRows(rows, fed), FoldSlots(fed).value.ids, r);
  }

  lemma ListsNot(all: seq<Row>, ids: seq<int>, r: Row)
    requires r in all && r.id !in ids
    ensures !ListsAll(all, ids)
  {
  }

  // ----------------------------------------------------- the merged listing again

  /** The rows behind a line of the merged listing. */
  function BehindSlots(rows: seq<Row>, key: Key): seq<Slot> { Fed(HashGroups(rows), key) }

  function Behind(rows: seq<Row>, key: Key): seq<Row> { ClassRows(rows, BehindSlots(rows, key)) }

  /** These are the rows of its class. */
  lemma BehindIsClass(rows: seq<Row>, key: Key)
    ensures forall r :: r in Behind(rows, key) <==> r in Class(rows, key)
  {
    var slots := HashGroups(rows);
    hide HashGroups, HashKey, SecondKey;
    forall r | r in rows ensures r in Behind(rows, key) <==> FinalKey(rows, r) == key {
      var i := GroupIndex(rows, r);
      if FinalKey(rows, r) == key {
        assert slots[i] in Fed(slots, key);
      }
      if r in Behind(rows, key) {
        var slot :| slot in Fed(slots, key) && slot.key == HashKey(r);
        var j :| 0 <= j < |slots| && slots[j] == slot;
        OneIndex(rows, r, j);
      }
    }
  }

  lemma GroupListsOwn(rows: seq<Row>, slot: Slot)
    requires slot in HashGroups(rows)
    ensures ListsOwn(slot.group, RowsOf(rows, slot.key)) && FoldRows(RowsOf(rows, slot.key)) == Some(slot.group)
  {
    HashGroupsShow(rows);
    HashGroupsFold(rows);
    hide HashGroups, FoldRows, HashKey;
    var i :| 0 <= i < |HashGroups(rows)| && HashGroups(rows)[i] == slot;
    assert Shows(slot.group, RowsWith(rows, slot.key));
    assert forall x :: x in RowsWith(rows, slot.key) ==> x in RowsOf(rows, slot.key);
  }

  /**
   A line of the merged listing lists the ids of all rows of its class exactly if every hash
   group after the first is a single row, and from the third row on none takes the lead.
   */
  lemma GroupIdsCompleteExactly(rows: seq<Row>, i: nat)
    requires DistinctIds(rows) && i < |Merged(rows)|
    ensures var slot := Merged(rows)[i];
            (forall r :: r in Class(rows, slot.key) ==> r.id in slot.group.ids)
            <==> LaterSingle(rows, BehindSlots(rows, slot.key)) && NoLateWinner(Behind(rows, slot.key))
  {
    var slot := Merged(rows)[i];
    var fed := BehindSlots(rows, slot.key);
    LineFolds(rows, i);
    FedFacts(rows, slot.key);
    ListsClass(rows, slot.key, slot.group.ids);
    hide *;
    BehindListed(rows, fed);
  }

  lemma ListsClass(rows: seq<Row>, key: Key, ids: seq<int>)
    ensures ListsAll(ClassRows(rows, BehindSlots(rows, key)), ids)
            <==> forall r :: r in Class(rows, key) ==> r.id in ids
    ensures Behind(rows, key) == ClassRows(rows, BehindSlots(rows, key))
  {
    BehindIsClass(rows, key);
    hide Class, ClassRows, BehindSlots;
  }

  lemma BehindListed(rows: seq<Row>, fed: seq<Slot>)
    requires fed != [] && DistinctIds(rows) && FedOk(rows, fed)
    ensures ListsAll(ClassRows(rows, fed), FoldSlots(fed).value.ids)
            <==> LaterSingle(rows, fed) && NoLateWinner(ClassRows(rows, fed))
  {
    hide ClassRows, RowsOf, FoldSlots, NoLateWinner, DistinctIds, ListsOwn, ListsAll, DistinctKeys, Folds;
    if LaterSingle(rows, fed) {
      SinglesListed(rows, fed);
    } else {
      var j :| 1 <= j < |fed| && |RowsOf(rows, fed[j].key)| != 1;
      ManyLost(rows, fed, j);
    }
  }

  ghost predicate FedOk(rows: seq<Row>, fed: seq<Slot>) {
    && DistinctKeys(fed) && Folds(rows, fed)
    && (forall j :: 0 <= j < |fed| ==> ListsOwn(fed[j].group, RowsOf(rows, fed[j].key)))
    && (forall j :: 0 <= j < |fed| ==> |RowsOf(rows, fed[j].key)| >= 1)
  }

  lemma LineFolds(rows: seq<Row>, i: nat)
    requires DistinctIds(rows) && i < |Merged(rows)|
    ensures var slot := Merged(rows)[i];
            BehindSlots(rows, slot.key) != [] && FoldSlots(BehindSlots(rows, slot.key)) == Some(slot.group)
  {
    ShownDistinct(rows);
    EpisodeGroupsFold(HashGroups(rows));
    FoldSlotsSome(BehindSlots(rows, Merged(rows)[i].key));
    hide HashGroups, EpisodeGroups, Fed, FoldSlots;
  }

  lemma SlotFacts(rows: seq<Row>, slot: Slot)
    requires slot in HashGroups(rows)
    ensures ListsOwn(slot.group, RowsOf(rows, slot.key)) && FoldRows(RowsOf(rows, slot.key)) == Some(slot.group)
    ensures |RowsOf(rows, slot.key)| >= 1
  {
    hide *;
    GroupListsOwn(rows, slot);
    FoldRowsSome(RowsOf(rows, slot.key));
  }

  lemma FedFacts(rows: seq<Row>, key: Key)
    ensures FedOk(rows, BehindSlots(rows, key))
  {
    var fed := BehindSlots(rows, key);
    assert fed == Fed(HashGroups(rows), key) && forall x :: x in fed ==> x in HashGroups(rows);
    hide *;
    HashGroupsKeys(rows);
    KeysDistinct(HashGroups(rows), HashKeys(rows));
    FedDistinct(HashGroups(rows), key);
    forall slot | slot in fed
      ensures ListsOwn(slot.group, RowsOf(rows, slot.key)) && FoldRows(RowsOf(rows, slot.key)) == Some(slot.group)
              && |RowsOf(rows, slot.key)| >= 1
    {
      SlotFacts(rows, slot);
    }
    FedAre(rows, fed);
  }

  lemma FedAre(rows: seq<Row>, fed: seq<Slot>)
    requires DistinctKeys(fed)
    requires forall s :: s in fed ==>
               ListsOwn(s.group, RowsOf(rows, s.key)) && FoldRows(RowsOf(rows, s.key)) == Some(s.group) &&
               |RowsOf(rows, s.key)| >= 1
    ensures FedOk(rows, fed)
  {
    hide RowsOf, ListsOwn, FoldRows, HashKey, DistinctKeys;
    forall j | 0 <= j < |fed|
      ensures ListsOwn(fed[j].group, RowsOf(rows, fed[j].key)) && |RowsOf(rows, fed[j].key)| >= 1
              && FoldRows(RowsOf(rows, fed[j].key)) == Some(fed[j].group)
    {
      assert fed[j] in fed;
    }
  }

  /** For rows of one link: all ids are listed exactly if from the third row on none takes the lead. */
  lemma HashGroupIdsCompleteExactly(rows: seq<Row>, i: nat)
    requires DistinctIds(rows) && i < |HashGroups(rows)|
    ensures var slot := HashGroups(rows)[i];
            (forall r :: r in RowsWith(rows, slot.key) ==> r.id in slot.group.ids)
              <==> NoLateWinner(RowsOf(rows, slot.key))
  {
    var slot := HashGroups(rows)[i];
    var part := RowsOf(rows, slot.key);
    GroupListsOwn(rows, slot);
    FoldRowsSome(part);
    RowsOfDistinct(rows, slot.key);
    assert forall x :: x in RowsWith(rows, slot.key) <==> x in part;
    hide HashGroups, HashKey, RowsWith, RowsOf, FoldRows, NoLateWinner;
    FoldListsAll(part);
  }

  /** Three rows of one link, the last with a better status: the listing forgets the second. */
  lemma GroupIdsIncomplete(link: (string, string))
    ensures var a := Row(3, 1, "failed", Some(link), {}, "");
            var b := Row(2, 1, "failed", Some(link), {}, "");
            var c := Row(1, 1, "delivered", Some(link), {}, "");
            && DistinctIds([a, b, c]) && |Merged([a, b, c])| == 1
            && Merged([a, b, c])[0].group.ids == [1, 3] && b in Class([a, b, c], Merged([a, b, c])[0].key)
  {
    var a := Row(3, 1, "failed", Some(link), {}, "");
    var b := Row(2, 1, "failed", Some(link), {}, "");
    var c := Row(1, 1, "delivered", Some(link), {}, "");
    ThreeMerged(a, b, c);
    ThreeRows(a, b, c);
    var h := MergeGroup(MergeGroup(AsGroup(a), b), c);
    OneLine(Slot(HashKey(a), h));
    var i := GroupIndex([a, b, c], b);
    hide MergeGroup, HashGroups, EpisodeGroups;
    assert i == 0;
  }

  lemma ThreeMerged(a: Row, b: Row, c: Row)
    requires a.id == 3 && b.id == 2 && c.id == 1 && a.status == b.status == "failed" && c.status == "delivered"
    ensures var h := MergeGroup(MergeGroup(AsGroup(a), b), c);
            h.ids == [1, 3] && SameRow(h.row, c)
  {
    MergeIds(AsGroup(a), b);
    MergeIds(MergeGroup(AsGroup(a), b), c);
    hide MergeGroup;
  }

  lemma OneLine(slot: Slot)
    requires EpisodeGroupKey(slot.group.row).None?
    ensures EpisodeGroups([slot]) == [Slot(ByRow(slot.group.row.id), slot.group)]
  {
    assert [slot][..0] == [];
  }

  lemma ThreeRows(a: Row, b: Row, c: Row)
    requires HashKey(a) == HashKey(b) == HashKey(c)
    ensures HashGroups([a, b, c]) == [Slot(HashKey(a), MergeGroup(MergeGroup(AsGroup(a), b), c))]
  {
    hide MergeGroup, HashKey;
    var two, one := [a, b], [a];
    assert one[..0] == [] && two[..1] == one && [a, b, c][..2] == two;
    assert HashGroups(one) == [Slot(HashKey(a), AsGroup(a))];
    assert HashGroups(two) == [Slot(HashKey(a), MergeGroup(AsGroup(a), b))];
  }

  // ------------------------------------------------------ which episodes are listed

  /** Episodes of the rows with these ids. */
  function EpisodesOf(rows: seq<Row>, ids: seq<int>): set<EpisodeKey> {
    set i, k | 0 <= i < |rows| && rows[i].id in ids && k in rows[i].episodes :: k
  }

  /** One of the rows, apart from the error it shows. */
  predicate Among(rows: seq<Row>, r: Row) { exists own :: own in rows && SameRow(r, own) }

  /** A group lists the episodes of the rows whose ids it lists. */
  ghost predicate ListsEpisodes(rows: seq<Row>, g: Group) {
    Among(rows, g.row) && g.row.id in g.ids && g.keys == EpisodesOf(rows, g.ids)
  }

  lemma EpisodesOfOne(rows: seq<Row>, r: Row)
    requires DistinctIds(rows) && Among(rows, r)
    ensures ListsEpisodes(rows, AsGroup(r))
  {
    var own :| own in rows && SameRow(r, own);
    var i :| 0 <= i < |rows| && rows[i] == own;
    forall k ensures k in EpisodesOf(rows, [r.id]) <==> k in r.episodes {
      if k in r.episodes {
        assert rows[i].id in [r.id] && k in rows[i].episodes;
      }
    }
  }

  lemma EpisodesOfMore(rows: seq<Row>, a: seq<int>, b: seq<int>)
    ensures EpisodesOf(rows, FirstSeen(a + b)) == EpisodesOf(rows, a) + EpisodesOf(rows, b)
  {
    assert forall x :: x in FirstSeen(a + b) <==> x in a || x in b;
    hide FirstSeen;
  }

  lemma JoinedEpisodes(rows: seq<Row>, a: Group, b: Group)
    requires DistinctIds(rows) && ListsEpisodes(rows, a) && ListsEpisodes(rows, b)
    ensures ListsEpisodes(rows, Joined(a, b))
  {
    EpisodesOfMore(rows, a.ids, b.ids);
    OwnListed(rows, a);
    OwnListed(rows, b);
    hide EpisodesOf, Rank, FirstSeen, DistinctIds;
    var own :| own in rows && SameRow(a.row, own);
    assert SameRow(Joined(a, b).row, own);
    assert a.row.id in a.ids + b.ids;
    assert a.keys + b.keys + a.row.episodes + b.row.episodes == a.keys + b.keys;
  }

  lemma OwnListed(rows: seq<Row>, g: Group)
    requires ListsEpisodes(rows, g)
    ensures forall k :: k in g.row.episodes ==> k in g.keys
  {
    var own :| own in rows && SameRow(g.row, own);
    var i :| 0 <= i < |rows| && rows[i] == own;
    forall k | k in g.row.episodes ensures k in EpisodesOf(rows, g.ids) {
      assert rows[i].id in g.ids && k in rows[i].episodes;
    }
  }

  lemma MergedEpisodes(rows: seq<Row>, g: Group, x: Row)
    requires DistinctIds(rows) && ListsEpisodes(rows, g) && Among(rows, x)
    ensures ListsEpisodes(rows, MergeGroup(g, x))
  {
    EpisodesOfOne(rows, x);
    EpisodesOfOne(rows, g.row);
    hide ListsEpisodes, Joined, AsGroup, Outranks, Among, DistinctIds;
    if Outranks(x, g.row) {
      JoinedEpisodes(rows, AsGroup(x), AsGroup(g.row));
    } else {
      JoinedEpisodes(rows, g, AsGroup(x));
    }
  }

  lemma {:induction false} FoldedEpisodes(rows: seq<Row>, g: Group, items: seq<Row>)
    requires DistinctIds(rows) && ListsEpisodes(rows, g) && forall x :: x in items ==> Among(rows, x)
    ensures ListsEpisodes(rows, Folded(g, items))
    decreases |items|
  {
    hide ListsEpisodes, MergeGroup, Among, DistinctIds;
    if items != [] {
      assert items[|items| - 1] in items;
      FoldedEpisodes(rows, g, items[..|items| - 1]);
      MergedEpisodes(rows, Folded(g, items[..|items| - 1]), items[|items| - 1]);
    }
  }

  lemma FoldRowsEpisodes(rows: seq<Row>, part: seq<Row>)
    requires DistinctIds(rows) && part != [] && forall x :: x in part ==> x in rows
    ensures ListsEpisodes(rows, FoldRows(part).value)
  {
    forall x | x in part ensures Among(rows, x) { assert SameRow(x, x); }
    assert part[0] in part && forall x :: x in part[1..] ==> x in part;
    hide ListsEpisodes, Among, Folded, AsGroup;
    EpisodesOfOne(rows, part[0]);
    FoldedEpisodes(rows, AsGroup(part[0]), part[1..]);
  }

  lemma SlotEpisodes(rows: seq<Row>, slot: Slot)
    requires DistinctIds(rows) && slot in HashGroups(rows)
    ensures ListsEpisodes(rows, slot.group) && Among(rows, slot.group.row)
  {
    GroupListsOwn(rows, slot);
    FoldRowsSome(RowsOf(rows, slot.key));
    hide HashGroups, FoldRows, HashKey, ListsOwn;
    FoldRowsEpisodes(rows, RowsOf(rows, slot.key));
    hide EpisodesOf;
  }

  /** A line of the merged listing lists exactly the episodes of the rows whose ids it lists. */
  lemma EpisodesFollowIds(rows: seq<Row>, i: nat)
    requires DistinctIds(rows) && i < |Merged(rows)|
    ensures Merged(rows)[i].group.keys == EpisodesOf(rows, Merged(rows)[i].group.ids)
  {
    var fed := BehindSlots(rows, Merged(rows)[i].key);
    LineFolds(rows, i);
    forall j | 0 <= j < |fed| ensures ListsEpisodes(rows, fed[j].group) && Among(rows, fed[j].group.row) {
      assert fed[j] in fed;
      SlotEpisodes(rows, fed[j]);
    }
    assert FoldSlots(fed).value == Folded(fed[0].group, Shown(fed[1..]));
    hide HashGroups, EpisodeGroups, Fed, Among, Folded, FoldSlots, DistinctIds, BehindSlots;
    forall x | x in Shown(fed[1..]) ensures Among(rows, x) {
      var j :| 0 <= j < |fed[1..]| && Shown(fed[1..])[j] == x;
      assert fed[1..][j] == fed[j + 1];
    }
    FoldedEpisodes(rows, fed[0].group, Shown(fed[1..]));
  }
}
