/** The schema migration that merges duplicate subscriptions and then duplicate resources, so
    that both unique indexes can be created. */
module SchemaMerge {
  import opened IntSets
  import opened PyText

  /** `data` stands for the columns the migration never looks at. */
  datatype Subscription = Subscription(mediaType: string, tmdbId: Option<int>, status: string, data: string)
  datatype Resource = Resource(subscriptionId: int, url: string, data: string)

  datatype Db = Db(subs: map<int, Subscription>, resources: map<int, Resource>)

  // -------------------------------------------------------------- statements

  /** Rows the partial unique index covers. */
  predicate Indexed(s: Subscription) { s.tmdbId.Some? && s.status != "completed" }

  predicate SameWork(a: Subscription, b: Subscription) {
    Indexed(a) && Indexed(b) && a.mediaType == b.mediaType && a.tmdbId == b.tmdbId
  }

  function Peers(subs: map<int, Subscription>, id: int): set<int>
    requires id in subs
  {
    set j | j in subs && SameWork(subs[id], subs[j])
  }

  /** The rows the first UPDATE selects: their subscription has a peer with a smaller id. */
  predicate Repointed(subs: map<int, Subscription>, r: Resource) {
    r.subscriptionId in subs && exists j :: j in Peers(subs, r.subscriptionId) && j < r.subscriptionId
  }

  function Repoint(db: Db): Db {
    db.(resources := map id | id in db.resources ::
          if Repointed(db.subs, db.resources[id])
          then db.resources[id].(subscriptionId := Lowest(Peers(db.subs, db.resources[id].subscriptionId)))
          else db.resources[id])
  }

  /** `id NOT IN (SELECT MIN(id) ... GROUP BY media_type, tmdb_id)` on an indexed row. */
  predicate Dropped(subs: map<int, Subscription>, id: int) {
    id in subs && Indexed(subs[id]) && (Peers(subs, id) == {} || Lowest(Peers(subs, id)) != id)
  }

  /** The DELETE on subscriptions, with the cascade of the foreign key. */
  function DropSubscriptions(db: Db): Db {
    Db(map id | id in db.subs && !Dropped(db.subs, id) :: db.subs[id],
       map id | id in db.resources && !Dropped(db.subs, db.resources[id].subscriptionId) :: db.resources[id])
  }

  predicate SameLink(a: Resource, b: Resource) { a.subscriptionId == b.subscriptionId && a.url == b.url }

  function Copies(resources: map<int, Resource>, id: int): set<int>
    requires id in resources
  {
    set j | j in resources && SameLink(resources[id], resources[j])
  }

  /** `_delete_duplicate_resources`. */
  function DropCopies(db: Db): Db {
    db.(resources := map id | && id in db.resources && Copies(db.resources, id) != {}
                              && Lowest(Copies(db.resources, id)) == id ::
                       db.resources[id])
  }

  function Migrated(db: Db): Db { DropCopies(DropSubscriptions(Repoint(db))) }

  // -------------------------------------------------------------- the program

  class Database {
    var subs: map<int, Subscription>
    var resources: map<int, Resource>

    ghost function Now(): Db
      reads this
    {
      Db(subs, resources)
    }

    method MergeDuplicateSubscriptions()
      modifies this
      ensures Now() == DropSubscriptions(Repoint(old(Now())))
      ensures SubscriptionIndex(Now()) && resources.Keys == old(resources.Keys)
    {
      PeersGone(Now());
      CascadeTakesNothing(Now());
      resources := map id | id in resources ::
        if Repointed(subs, resources[id])
        then resources[id].(subscriptionId := Lowest(Peers(subs, resources[id].subscriptionId)))
        else resources[id];
      assert resources == Repoint(old(Now())).resources;
      resources := map id | id in resources && !Dropped(subs, resources[id].subscriptionId) :: resources[id];
      subs := map id | id in subs && !Dropped(subs, id) :: subs[id];
    }

    method DeleteDuplicateResources()
      modifies this`resources
      ensures Now() == DropCopies(old(Now()))
      ensures LinkIndex(Now()) && Links(Now()) == Links(old(Now()))
    {
      CopiesGone(Now());
      resources := map id | id in resources && Copies(resources, id) != {} && Lowest(Copies(resources, id)) == id ::
        resources[id];
    }

    method Migrate()
      modifies this
      ensures Now() == Migrated(old(Now()))
      ensures SubscriptionIndex(Now()) && LinkIndex(Now())
    {
      MigratedIs(Now());
      MergeDuplicateSubscriptions();
      DeleteDuplicateResources();
    }
  }

  lemma MigratedIs(db: Db)
    ensures Migrated(db) == DropCopies(DropSubscriptions(Repoint(db)))
  {
  }

  // ---------------------------------------------------------------- keepers

  /** The subscription a row is merged into. */
  function Keeper(subs: map<int, Subscription>, id: int): int {
    if id in subs && Indexed(subs[id]) && Peers(subs, id) != {} then Lowest(Peers(subs, id)) else id
  }

  lemma PeersAgree(subs: map<int, Subscription>, i: int, j: int)
    requires i in subs && j in Peers(subs, i)
    ensures j in subs && Peers(subs, i) == Peers(subs, j) && Keeper(subs, i) == Keeper(subs, j)
  {
    var a, b := Peers(subs, i), Peers(subs, j);
    forall k | k in subs ensures k in a <==> k in b {}
    assert a == b;
    assert i in a;
  }

  lemma KeeperFacts(subs: map<int, Subscription>, id: int)
    ensures id in subs && Indexed(subs[id]) ==> id in Peers(subs, id) && Keeper(subs, id) in Peers(subs, id)
    ensures !Dropped(subs, Keeper(subs, id)) && Keeper(subs, Keeper(subs, id)) == Keeper(subs, id)
    ensures Dropped(subs, id) <==> Keeper(subs, id) != id
    ensures Keeper(subs, id) <= id && (Keeper(subs, id) in subs <==> id in subs)
  {
    if id in subs && Indexed(subs[id]) {
      assert id in Peers(subs, id);
      PeersAgree(subs, id, Keeper(subs, id));
    }
  }

  /** The first UPDATE sends every resource to its keeper. */
  lemma RepointIsKeeper(db: Db, id: int)
    requires id in db.resources
    ensures Repoint(db).resources[id]
            == db.resources[id].(subscriptionId := Keeper(db.subs, db.resources[id].subscriptionId))
  {
    var r := db.resources[id];
    KeeperFacts(db.subs, r.subscriptionId);
    if r.subscriptionId in db.subs && Indexed(db.subs[r.subscriptionId]) {
      var k := Keeper(db.subs, r.subscriptionId);
      assert k in Peers(db.subs, r.subscriptionId);
    }
  }

  /** No resource is lost to the cascade: after repointing none refers to a dropped row. */
  lemma CascadeTakesNothing(db: Db)
    ensures DropSubscriptions(Repoint(db)).resources == Repoint(db).resources
  {
    var r := Repoint(db);
    forall id | id in r.resources ensures !Dropped(r.subs, r.resources[id].subscriptionId) {
      RepointIsKeeper(db, id);
      KeeperFacts(db.subs, db.resources[id].subscriptionId);
    }
    assert DropSubscriptions(r).resources == r.resources;
  }

  /** Resources that end up on one link: same URL, same keeper. */
  function Merged(db: Db, id: int): set<int>
    requires id in db.resources
  {
    set j | j in db.resources && db.resources[j].url == db.resources[id].url &&
            Keeper(db.subs, db.resources[j].subscriptionId) == Keeper(db.subs, db.resources[id].subscriptionId)
  }

  /** A resource of the result is the oldest of those merged onto its link, and only its
      subscription has changed. */
  lemma Survivors(db: Db, id: int)
    ensures id in Migrated(db).resources <==> id in db.resources && forall j :: j in Merged(db, id) ==> id <= j
    ensures id in Migrated(db).resources ==>
              Migrated(db).resources[id]
                == db.resources[id].(subscriptionId := Keeper(db.subs, db.resources[id].subscriptionId))
  {
    CascadeTakesNothing(db);
    var r := Repoint(db).resources;
    forall j | j in db.resources
      ensures r[j] == db.resources[j].(subscriptionId := Keeper(db.subs, db.resources[j].subscriptionId))
    {
      RepointIsKeeper(db, j);
    }
    assert r.Keys == db.resources.Keys;
    hide Repoint, Keeper;
    if id in db.resources {
      var a, b := Copies(r, id), Merged(db, id);
      forall j | j in db.resources ensures j in a <==> j in b {}
      assert id in a && id in b;
      assert forall j :: j in b ==> j in a;
      assert forall j :: j in a ==> j in b;
    }
  }

  // ------------------------------------------------------------- main results

  /** The links of a database: which subscription owns which URL. */
  function Links(db: Db): set<(int, string)> {
    set id | id in db.resources :: (db.resources[id].subscriptionId, db.resources[id].url)
  }

  /** After the first statements no two indexed subscriptions are the same work. */
  lemma PeersGone(db: Db)
    ensures SubscriptionIndex(DropSubscriptions(Repoint(db)))
  {
    var m := DropSubscriptions(Repoint(db));
    forall i, j | i in m.subs && j in m.subs && SameWork(m.subs[i], m.subs[j]) ensures i == j {
      assert j in Peers(db.subs, i);
      PeersAgree(db.subs, i, j);
    }
  }

  /** Deleting copies leaves one resource per link, and every link. */
  lemma CopiesGone(db: Db)
    ensures LinkIndex(DropCopies(db)) && Links(DropCopies(db)) == Links(db)
  {
    var m := DropCopies(db);
    forall i, j | i in m.resources && j in m.resources && SameLink(m.resources[i], m.resources[j]) ensures i == j {
      assert forall k :: k in db.resources ==> (k in Copies(db.resources, i) <==> k in Copies(db.resources, j));
      assert Copies(db.resources, i) == Copies(db.resources, j);
    }
    forall id | id in db.resources ensures (db.resources[id].subscriptionId, db.resources[id].url) in Links(m) {
      var same := Copies(db.resources, id);
      assert id in same;
      var k := Lowest(same);
      assert forall j :: j in db.resources ==> (j in Copies(db.resources, k) <==> j in same);
      assert Copies(db.resources, k) == same;
      assert k in m.resources;
    }
  }

  /** The partial unique index on (media type, TMDB id), and the one on (subscription, URL). */
  ghost predicate SubscriptionIndex(db: Db) {
    forall i, j ::
      i in db.subs && j in db.subs && i != j &&
      db.subs[i].tmdbId.Some? && db.subs[i].status != "completed" &&
      db.subs[j].tmdbId.Some? && db.subs[j].status != "completed" ==>
        (db.subs[i].mediaType, db.subs[i].tmdbId) != (db.subs[j].mediaType, db.subs[j].tmdbId)
  }

  ghost predicate LinkIndex(db: Db) {
    forall i, j :: i in db.resources && j in db.resources && i != j ==>
      (db.resources[i].subscriptionId, db.resources[i].url) != (db.resources[j].subscriptionId, db.resources[j].url)
  }

  /** Two subscriptions are merged exactly if both are open, with the same media type and TMDB id. */
  lemma MergedExactly(subs: map<int, Subscription>, i: int, j: int)
    requires i in subs && j in subs && i != j
    ensures Keeper(subs, i) == Keeper(subs, j) <==>
              && subs[i].tmdbId.Some? && subs[j].tmdbId == subs[i].tmdbId && subs[j].mediaType == subs[i].mediaType
              && subs[i].status != "completed" && subs[j].status != "completed"
  {
    KeeperFacts(subs, i);
    KeeperFacts(subs, j);
    if j in Peers(subs, i) {
      PeersAgree(subs, i, j);
    }
  }

  /** They are merged into the one with the lowest id. */
  lemma KeeperLowest(subs: map<int, Subscription>, i: int)
    requires i in subs
    ensures Keeper(subs, i) in subs
    ensures forall j :: j in subs && Keeper(subs, j) == Keeper(subs, i) ==> Keeper(subs, i) <= j
  {
    KeeperFacts(subs, i);
    forall j | j in subs && Keeper(subs, j) == Keeper(subs, i) ensures Keeper(subs, i) <= j { KeeperFacts(subs, j); }
  }

  lemma IndexesHold(db: Db)
    ensures SubscriptionIndex(Migrated(db)) && LinkIndex(Migrated(db))
  {
    var m := Migrated(db);
    forall i, j | i in m.subs && j in m.subs && SameWork(m.subs[i], m.subs[j]) ensures i == j {
      assert j in Peers(db.subs, i);
      PeersAgree(db.subs, i, j);
    }
    forall i, j | i in m.resources && j in m.resources && SameLink(m.resources[i], m.resources[j]) ensures i == j {
      Survivors(db, i);
      Survivors(db, j);
      assert j in Merged(db, i) && i in Merged(db, j);
    }
  }

  /** The surviving subscriptions are the keepers, with all their columns. */
  lemma KeepersSurvive(db: Db, id: int)
    ensures id in Migrated(db).subs <==> id in db.subs && Keeper(db.subs, id) == id
    ensures id in Migrated(db).subs ==> Migrated(db).subs[id] == db.subs[id]
    ensures id in db.subs ==> Keeper(db.subs, id) in Migrated(db).subs
  {
    KeeperFacts(db.subs, id);
  }

  /** URLs a subscription owns. */
  function Urls(db: Db, sub: int): set<string> {
    set id | id in db.resources && db.resources[id].subscriptionId == sub :: db.resources[id].url
  }

  /** URLs owned by any subscription that is merged into `sub`. */
  function GroupUrls(db: Db, sub: int): set<string> {
    set id | id in db.resources && Keeper(db.subs, db.resources[id].subscriptionId) == sub :: db.resources[id].url
  }

  lemma LinkKept(db: Db, id: int) returns (k: int)
    requires id in db.resources
    ensures k in Migrated(db).resources && db.resources[id].url == Migrated(db).resources[k].url
    ensures Migrated(db).resources[k].subscriptionId == Keeper(db.subs, db.resources[id].subscriptionId)
  {
    var same := Merged(db, id);
    assert id in same;
    k := Lowest(same);
    assert forall j :: j in Merged(db, k) ==> j in same;
    Survivors(db, k);
  }

  /** Every subscription ends up with exactly the union of the URLs of its merged group. */
  lemma OwnsUnion(db: Db, sub: int)
    ensures Urls(Migrated(db), sub) == GroupUrls(db, sub)
  {
    var m := Migrated(db);
    forall u | u in Urls(m, sub) ensures u in GroupUrls(db, sub) {
      var id :| id in m.resources && m.resources[id].subscriptionId == sub && m.resources[id].url == u;
      Survivors(db, id);
    }
    forall u | u in GroupUrls(db, sub) ensures u in Urls(m, sub) {
      var id :| id in db.resources && Keeper(db.subs, db.resources[id].subscriptionId) == sub
        && db.resources[id].url == u;
      var k := LinkKept(db, id);
    }
  }

  lemma OwnKeeper(db: Db, id: int)
    requires SubscriptionIndex(db)
    ensures Keeper(db.subs, id) == id
  {
    KeeperFacts(db.subs, id);
    if id in db.subs && Indexed(db.subs[id]) {
      assert SameWork(db.subs[id], db.subs[Keeper(db.subs, id)]);
    }
  }

  lemma AloneOnLink(db: Db, id: int)
    requires SubscriptionIndex(db) && LinkIndex(db) && id in db.resources
    ensures Merged(db, id) == {id}
    ensures Keeper(db.subs, db.resources[id].subscriptionId) == db.resources[id].subscriptionId
  {
    hide Keeper;
    OwnKeeper(db, db.resources[id].subscriptionId);
    forall j | j in Merged(db, id) ensures j == id { OwnKeeper(db, db.resources[j].subscriptionId); }
    assert id in Merged(db, id);
  }

  lemma RowsStay(db: Db, id: int)
    requires SubscriptionIndex(db) && LinkIndex(db)
    ensures var m := Migrated(db);
            && (id in m.subs <==> id in db.subs) && (id in m.subs ==> m.subs[id] == db.subs[id])
            && (id in m.resources <==> id in db.resources)
            && (id in m.resources ==> m.resources[id] == db.resources[id])
  {
    hide *;
    KeepersSurvive(db, id);
    OwnKeeper(db, id);
    Survivors(db, id);
    if id in db.resources { AloneOnLink(db, id); }
  }

  /** A database that satisfies both indexes is left alone. */
  lemma NothingToMerge(db: Db)
    requires SubscriptionIndex(db) && LinkIndex(db)
    ensures Migrated(db) == db
  {
    var m := Migrated(db);
    hide *;
    forall id
      ensures (id in m.subs <==> id in db.subs) && (id in m.subs ==> m.subs[id] == db.subs[id])
      ensures (id in m.resources <==> id in db.resources) && (id in m.resources ==> m.resources[id] == db.resources[id])
    {
      RowsStay(db, id);
    }
    assert m.subs == db.subs;
    assert m.resources == db.resources;
  }

  /** A second run changes nothing. */
  lemma MigrateIdempotent(db: Db)
    ensures Migrated(Migrated(db)) == Migrated(db)
  {
    IndexesHold(db);
    NothingToMerge(Migrated(db));
  }
}
