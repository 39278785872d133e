/** The two scripts that seed the default categories: `initializeCategories`
    and `checkCategories`. Both create the same five default categories, and
    only into an empty category collection when some user exists. */
module Seeding {

  import opened Js
  import opened Text
  import opened Http
  import opened CategorySchema
  import opened Database
  import opened CategoryController

  /** One entry of the default-category list. */
  datatype Seed = Seed(name: string, description: string, color: string, icon: string)

  /** The default categories, in creation order. */
  const Defaults: seq<Seed> := [
    Seed("UI Components", "Componentes de interfaz de usuario básicos", "#8B5CF6", "component"),
    Seed("Forms", "Componentes relacionados con formularios", "#10B981", "form"),
    Seed("Navigation", "Componentes de navegación y menús", "#F59E0B", "navigation"),
    Seed("Layout", "Componentes de diseño y estructura", "#EF4444", "layout"),
    Seed("Data Display", "Componentes para mostrar datos", "#3B82F6", "data")
  ]

  /** `new Category({ ...seed, isDefault: true, createdBy })` under id `id`. */
  function SeedCategory(s: Seed, id: Id, creator: Id): Category {
    NewCategory(id, s.name, Some(s.description), Some(s.color), Some(s.icon), creator, Some(true))
  }

  /** The ids are pairwise distinct and none is in use: fresh ObjectIds. */
  predicate FreshIds(db: Db, ids: seq<Id>) {
    && (forall i, j :: 0 <= i < j < |ids| ==> ids[i] != ids[j])
    && (forall i :: 0 <= i < |ids| ==> ids[i] !in db.categories)
  }

  /** The `for ... of` loop: save the seeds one by one; the first save the
      collection refuses throws, which ends the loop (the earlier ones stay). */
  function SaveEach(db: Db, seeds: seq<Seed>, ids: seq<Id>, creator: Id): (r: Db)
    requires |ids| == |seeds|
    ensures r.components == db.components
    decreases |seeds|
  {
    if |seeds| == 0 then db
    else
      var c := SeedCategory(seeds[0], ids[0], creator);
      if Saves(db, c) && ids[0] !in db.categories then
        SaveEach(db.(categories := db.categories[ids[0] := c]), seeds[1..], ids[1..], creator)
      else db
  }

  /** The loop only adds: every category stored before is still there, unchanged. */
  lemma {:induction false} SaveEachKeeps(db: Db, seeds: seq<Seed>, ids: seq<Id>, creator: Id, k: Id)
    requires |ids| == |seeds| && k in db.categories
    ensures var r := SaveEach(db, seeds, ids, creator);
            k in r.categories && r.categories[k] == db.categories[k]
    decreases |seeds|
  {
    if |seeds| > 0 {
      var c := SeedCategory(seeds[0], ids[0], creator);
      if Saves(db, c) && ids[0] !in db.categories {
        var db1 := db.(categories := db.categories[ids[0] := c]);
        assert db1.categories[k] == db.categories[k];
        SaveEachKeeps(db1, seeds[1..], ids[1..], creator, k);
      }
    }
  }

  /** Every seed's name is non-empty and already trimmed (so the trim
      setter keeps it), every colour is valid, and no two seeds share a name. */
  predicate SeedsWellFormed(seeds: seq<Seed>) {
    && (forall i :: 0 <= i < |seeds| ==> seeds[i].name != "" && IsTrimmed(seeds[i].name))
    && (forall i :: 0 <= i < |seeds| ==> ValidColor(seeds[i].color))
    && (forall i, j :: 0 <= i < j < |seeds| ==> seeds[i].name != seeds[j].name)
  }

  /** No stored category has the name of a seed. */
  predicate NoClash(cats: map<Id, Category>, seeds: seq<Seed>) {
    forall i, k :: 0 <= i < |seeds| && k in cats ==> cats[k].name != seeds[i].name
  }

  /** Every seed saves: it is well formed and clashes with no existing name. */
  predicate SeedsSave(db: Db, seeds: seq<Seed>) {
    SeedsWellFormed(seeds) && NoClash(db.categories, seeds)
  }

  lemma WellFormedTail(seeds: seq<Seed>)
    requires |seeds| > 0 && SeedsWellFormed(seeds)
    ensures SeedsWellFormed(seeds[1..])
  {
    forall i, j | 0 <= i < j < |seeds[1..]|
      ensures seeds[1..][i].name != seeds[1..][j].name
    {
      assert seeds[1..][i] == seeds[i + 1] && seeds[1..][j] == seeds[j + 1];
    }
  }

  /** Storing a category named like the first seed leaves the others clash-free. */
  lemma NoClashAfterAdd(cats: map<Id, Category>, seeds: seq<Seed>, id: Id, c: Category)
    requires |seeds| > 0 && SeedsWellFormed(seeds) && NoClash(cats, seeds)
    requires c.name == seeds[0].name
    ensures NoClash(cats[id := c], seeds[1..])
  {
    var cats1 := cats[id := c];
    forall i, k | 0 <= i < |seeds[1..]| && k in cats1
      ensures cats1[k].name != seeds[1..][i].name
    {
      assert seeds[1..][i] == seeds[i + 1];
      if k != id {
        assert cats1[k] == cats[k];
      }
    }
  }

  lemma FreshTail(db: Db, ids: seq<Id>, c: Category)
    requires |ids| > 0 && FreshIds(db, ids)
    ensures FreshIds(db.(categories := db.categories[ids[0] := c]), ids[1..])
  {
    forall i | 0 <= i < |ids[1..]|
      ensures ids[1..][i] !in db.categories[ids[0] := c]
    {
      assert ids[1..][i] == ids[i + 1];
      assert ids[0] != ids[i + 1];
    }
    forall i, j | 0 <= i < j < |ids[1..]|
      ensures ids[1..][i] != ids[1..][j]
    {
      assert ids[1..][i] == ids[i + 1] && ids[1..][j] == ids[j + 1];
    }
  }

  /** A seed whose name is trimmed keeps its name, colour and icon, and is
      a default owned by `creator`. */
  lemma SeedCategoryFields(s: Seed, id: Id, creator: Id)
    requires IsTrimmed(s.name)
    ensures var c := SeedCategory(s, id, creator);
            c.name == s.name && c.color == s.color && c.icon == s.icon && c.isDefault
            && c.createdBy == creator && c.id == id
  {
    TrimOfTrimmed(s.name);
  }

  /** The ids of a list, as a set. */
  function IdSet(ids: seq<Id>): (r: set<Id>)
    ensures forall i :: 0 <= i < |ids| ==> ids[i] in r
    ensures forall x :: x in r ==> x in ids
  {
    if |ids| == 0 then {} else {ids[0]} + IdSet(ids[1..])
  }

  lemma IdSetCons(ids: seq<Id>)
    requires |ids| > 0
    ensures IdSet(ids) == {ids[0]} + IdSet(ids[1..])
  {
  }

  /** The first seed of a list that saves is accepted by the collection. */
  lemma FirstSeedSaves(db: Db, seeds: seq<Seed>, ids: seq<Id>, creator: Id)
    requires |ids| == |seeds| > 0 && FreshIds(db, ids) && SeedsSave(db, seeds)
    ensures Saves(db, SeedCategory(seeds[0], ids[0], creator)) && ids[0] !in db.categories
  {
    var c := SeedCategory(seeds[0], ids[0], creator);
    SeedCategoryFields(seeds[0], ids[0], creator);
    assert ValidCategory(c);
    forall k | k in db.categories
      ensures db.categories[k].name != c.name
    {
      assert db.categories[k].name != seeds[0].name;
    }
  }

  /** After saving the first seed, the rest still save and their ids are still fresh. */
  lemma RestSeedsSave(db: Db, seeds: seq<Seed>, ids: seq<Id>, creator: Id)
    requires |ids| == |seeds| > 0 && FreshIds(db, ids) && SeedsSave(db, seeds)
    ensures var db1 := db.(categories := db.categories[ids[0] := SeedCategory(seeds[0], ids[0], creator)]);
            SeedsSave(db1, seeds[1..]) && FreshIds(db1, ids[1..])
  {
    var c := SeedCategory(seeds[0], ids[0], creator);
    SeedCategoryFields(seeds[0], ids[0], creator);
    WellFormedTail(seeds);
    NoClashAfterAdd(db.categories, seeds, ids[0], c);
    FreshTail(db, ids, c);
  }

  /** The first iteration of the loop, when its save succeeds. */
  lemma SaveEachStep(db: Db, seeds: seq<Seed>, ids: seq<Id>, creator: Id)
    requires |ids| == |seeds| > 0 && FreshIds(db, ids) && SeedsSave(db, seeds)
    ensures SaveEach(db, seeds, ids, creator)
            == SaveEach(db.(categories := db.categories[ids[0] := SeedCategory(seeds[0], ids[0], creator)]),
                        seeds[1..], ids[1..], creator)
  {
    FirstSeedSaves(db, seeds, ids, creator);
  }

  /** Seed `i` is stored under its id. */
  predicate SeededAt(cats: map<Id, Category>, seeds: seq<Seed>, ids: seq<Id>, creator: Id, i: int) {
    0 <= i < |ids| && i < |seeds| && ids[i] in cats && cats[ids[i]] == SeedCategory(seeds[i], ids[i], creator)
  }

  /** When every save succeeds, the loop adds exactly the seeds' ids. */
  lemma {:induction false} SaveEachKeys(db: Db, seeds: seq<Seed>, ids: seq<Id>, creator: Id)
    requires |ids| == |seeds| && FreshIds(db, ids) && SeedsSave(db, seeds)
    ensures SaveEach(db, seeds, ids, creator).categories.Keys == db.categories.Keys + IdSet(ids)
    decreases |seeds|
  {
    if |seeds| > 0 {
      var db1 := db.(categories := db.categories[ids[0] := SeedCategory(seeds[0], ids[0], creator)]);
      SaveEachStep(db, seeds, ids, creator);
      RestSeedsSave(db, seeds, ids, creator);
      SaveEachKeys(db1, seeds[1..], ids[1..], creator);
      IdSetCons(ids);
    }
  }

  /** When every save succeeds, each seed's id holds the category built from it. */
  lemma {:induction false} SaveEachSeeded(db: Db, seeds: seq<Seed>, ids: seq<Id>, creator: Id)
    requires |ids| == |seeds| && FreshIds(db, ids) && SeedsSave(db, seeds)
    ensures forall i :: 0 <= i < |ids| ==> SeededAt(SaveEach(db, seeds, ids, creator).categories, seeds, ids, creator, i)
    decreases |seeds|
  {
    if |seeds| > 0 {
      var db1 := db.(categories := db.categories[ids[0] := SeedCategory(seeds[0], ids[0], creator)]);
      SaveEachStep(db, seeds, ids, creator);
      RestSeedsSave(db, seeds, ids, creator);
      SaveEachSeeded(db1, seeds[1..], ids[1..], creator);
      var r := SaveEach(db1, seeds[1..], ids[1..], creator);
      SaveEachKeeps(db1, seeds[1..], ids[1..], creator, ids[0]);
      assert SeededAt(r.categories, seeds, ids, creator, 0);
      forall i | 0 < i < |ids|
        ensures SeededAt(r.categories, seeds, ids, creator, i)
      {
        assert SeededAt(r.categories, seeds[1..], ids[1..], creator, i - 1);
      }
    }
  }

  /** When every save succeeds, the loop adds exactly the seeds under their ids. */
  lemma SaveEachAll(db: Db, seeds: seq<Seed>, ids: seq<Id>, creator: Id)
    requires |ids| == |seeds| && FreshIds(db, ids) && SeedsSave(db, seeds)
    ensures var r := SaveEach(db, seeds, ids, creator);
            && r.categories.Keys == db.categories.Keys + IdSet(ids)
            && forall i :: 0 <= i < |ids| ==> SeededAt(r.categories, seeds, ids, creator, i)
  {
    SaveEachKeys(db, seeds, ids, creator);
    SaveEachSeeded(db, seeds, ids, creator);
  }

  /** The default list is well formed: trimmed, non-empty, pairwise
      distinct names and valid colours. */
  lemma DefaultsWellFormed()
    ensures SeedsWellFormed(Defaults)
  {
    DefaultNamesSave();
    DefaultColorsValid();
  }

  lemma DefaultNamesSave()
    ensures forall i :: 0 <= i < |Defaults| ==> Defaults[i].name != "" && IsTrimmed(Defaults[i].name)
    ensures forall i, j :: 0 <= i < j < |Defaults| ==> Defaults[i].name != Defaults[j].name
  {
  }

  lemma DefaultColorsValid()
    ensures forall i :: 0 <= i < |Defaults| ==> ValidColor(Defaults[i].color)
  {
  }

  /** Seeding an empty collection with well-formed seeds stores every seed
      under its id, and nothing else. */
  lemma {:induction false} SeedIntoEmpty(db: Db, seeds: seq<Seed>, ids: seq<Id>, creator: Id)
    requires |ids| == |seeds| && FreshIds(db, ids) && |db.categories| == 0 && SeedsWellFormed(seeds)
    ensures var r := SaveEach(db, seeds, ids, creator);
            && r.categories.Keys == IdSet(ids)
            && forall i :: 0 <= i < |ids| ==> SeededAt(r.categories, seeds, ids, creator, i)
  {
    EmptyMapKeys(db.categories);
    assert NoClash(db.categories, seeds);
    SaveEachAll(db, seeds, ids, creator);
  }

  /** Seeding an empty collection stores every default under its id. */
  lemma SeedDefaults(db: Db, ids: seq<Id>, creator: Id)
    requires |ids| == |Defaults| && FreshIds(db, ids) && |db.categories| == 0
    ensures var r := SaveEach(db, Defaults, ids, creator);
            && r.categories.Keys == IdSet(ids)
            && forall i :: 0 <= i < |ids| ==> SeededAt(r.categories, Defaults, ids, creator, i)
  {
    DefaultsWellFormed();
    SeedIntoEmpty(db, Defaults, ids, creator);
  }

  lemma EmptyMapKeys<K, V>(m: map<K, V>)
    requires |m| == 0
    ensures m.Keys == {}
  {
  }

  /** `initializeCategories`. `oldestFirst` is the users sorted by
      `createdAt` ascending; `ids` are the ObjectIds the five saves get.
      Nothing happens without a user or when any category exists; otherwise
      exactly the five defaults are created, owned by the oldest user. */
  function InitializeCategories(db: Db, oldestFirst: seq<Id>, ids: seq<Id>): (r: Db)
    requires |ids| == |Defaults| && FreshIds(db, ids)
    ensures |oldestFirst| == 0 || |db.categories| > 0 ==> r == db
    ensures r.components == db.components
    ensures |oldestFirst| > 0 && |db.categories| == 0 ==>
              && r.categories.Keys == IdSet(ids)
              && forall i :: 0 <= i < |ids| ==> SeededAt(r.categories, Defaults, ids, oldestFirst[0], i)
  {
    if |oldestFirst| == 0 then db
    else if |db.categories| > 0 then db
    else
      SeedDefaults(db, ids, oldestFirst[0]);
      SaveEach(db, Defaults, ids, oldestFirst[0])
  }

  /** What a successful seed holds: the five defaults with their names,
      colours and icons, all marked default and owned by `creator`. */
  lemma SeededDefaults(db: Db, oldestFirst: seq<Id>, ids: seq<Id>)
    requires |ids| == |Defaults| && FreshIds(db, ids)
    requires |oldestFirst| > 0 && |db.categories| == 0
    ensures var r := InitializeCategories(db, oldestFirst, ids);
            && |r.categories| == 5
            && forall i :: 0 <= i < 5 ==>
                 var c := r.categories[ids[i]];
                 c.name == Defaults[i].name && c.color == Defaults[i].color && c.icon == Defaults[i].icon
                 && c.isDefault && c.createdBy == oldestFirst[0] && c.id == ids[i]
  {
    var r := InitializeCategories(db, oldestFirst, ids);
    DefaultNamesSave();
    forall i | 0 <= i < 5
      ensures var c := r.categories[ids[i]];
              c.name == Defaults[i].name && c.color == Defaults[i].color && c.icon == Defaults[i].icon
              && c.isDefault && c.createdBy == oldestFirst[0] && c.id == ids[i]
    {
      assert SeededAt(r.categories, Defaults, ids, oldestFirst[0], i);
      SeedCategoryFields(Defaults[i], ids[i], oldestFirst[0]);
    }
    DistinctIdSetSize(ids);
  }

  lemma {:induction false} DistinctIdSetSize(ids: seq<Id>)
    requires forall i, j :: 0 <= i < j < |ids| ==> ids[i] != ids[j]
    ensures |IdSet(ids)| == |ids|
    decreases |ids|
  {
    if |ids| > 0 {
      IdSetCons(ids);
      DistinctIdSetSize(ids[1..]);
      forall j | 0 <= j < |ids[1..]|
        ensures ids[1..][j] != ids[0]
      {
        assert ids[1..][j] == ids[j + 1];
      }
      assert ids[0] !in ids[1..];
    }
  }

  /** `checkCategories`: existing categories are only listed; with none and
      no user nothing is created; otherwise the same five defaults are
      created, owned by the first user `User.find()` returns. */
  function CheckCategories(db: Db, users: seq<Id>, ids: seq<Id>): (r: Db)
    requires |ids| == |Defaults| && FreshIds(db, ids)
    ensures |db.categories| > 0 || |users| == 0 ==> r == db
    ensures r.components == db.components
    ensures |users| > 0 && |db.categories| == 0 ==>
              && r.categories.Keys == IdSet(ids)
              && forall i :: 0 <= i < |ids| ==> SeededAt(r.categories, Defaults, ids, users[0], i)
  {
    if |db.categories| == 0 then
      if |users| == 0 then db
      else
        SeedDefaults(db, ids, users[0]);
        SaveEach(db, Defaults, ids, users[0])
    else db
  }

  /** The owner of the first seeded category is the creator the seed was
      given. */
  lemma FirstSeedOwner(cats: map<Id, Category>, ids: seq<Id>, creator: Id)
    requires |ids| == |Defaults| && SeededAt(cats, Defaults, ids, creator, 0)
    ensures cats[ids[0]].createdBy == creator
  {
    DefaultsWellFormed();
    SeededKey(cats, Defaults, ids, creator, 0);
  }

  /** The two scripts see the same users, `checkCategories` in the order
      `User.find()` returns them and `initializeCategories` oldest first.
      They build the same store exactly when nothing is seeded or the first
      user of both orders is the same; otherwise the defaults get different
      owners. */
  lemma ScriptsAgree(db: Db, users: seq<Id>, oldestFirst: seq<Id>, ids: seq<Id>)
    requires |ids| == |Defaults| && FreshIds(db, ids)
    requires multiset(users) == multiset(oldestFirst)
    ensures CheckCategories(db, users, ids) == InitializeCategories(db, oldestFirst, ids)
            <==> |db.categories| > 0 || |users| == 0 || users[0] == oldestFirst[0]
  {
    assert |users| == |oldestFirst| by {
      assert |users| == |multiset(users)|;
    }
    if |db.categories| == 0 && |users| > 0 && users[0] != oldestFirst[0] {
      FirstSeedOwner(CheckCategories(db, users, ids).categories, ids, users[0]);
      FirstSeedOwner(InitializeCategories(db, oldestFirst, ids).categories, ids, oldestFirst[0]);
    }
  }

  /** A second run, with whatever users and ids, changes nothing. */
  lemma SeedingIdempotent(db: Db, users: seq<Id>, ids: seq<Id>, ids2: seq<Id>)
    requires |ids| == |Defaults| && FreshIds(db, ids)
    ensures var once := InitializeCategories(db, users, ids);
            FreshIds(once, ids2) && |ids2| == |Defaults| ==>
              InitializeCategories(once, users, ids2) == once && CheckCategories(once, users, ids2) == once
  {
    var once := InitializeCategories(db, users, ids);
    if |users| > 0 && |db.categories| == 0 {
      assert ids[0] in IdSet(ids);
      assert ids[0] in once.categories;
    }
  }

  /** The category seeded at one key: under its own id, a valid default
      owned by the creator, carrying the name of the seed at that key. */
  lemma SeededKey(cats: map<Id, Category>, seeds: seq<Seed>, ids: seq<Id>, creator: Id, i: int)
    requires |ids| == |seeds| && SeedsWellFormed(seeds) && 0 <= i < |ids|
    requires SeededAt(cats, seeds, ids, creator, i)
    ensures var c := cats[ids[i]];
            c.id == ids[i] && ValidCategory(c) && c.isDefault && c.createdBy == creator && c.name == seeds[i].name
  {
    SeedCategoryFields(seeds[i], ids[i], creator);
  }

  /** A collection holding exactly the seeds under their ids is valid. */
  lemma SeededMapValid(cats: map<Id, Category>, seeds: seq<Seed>, ids: seq<Id>, creator: Id)
    requires |ids| == |seeds| && SeedsWellFormed(seeds)
    requires forall i, j :: 0 <= i < j < |ids| ==> ids[i] != ids[j]
    requires forall k :: k in cats ==> k in ids
    requires forall i :: 0 <= i < |ids| ==> SeededAt(cats, seeds, ids, creator, i)
    ensures forall k :: k in cats ==>
              cats[k].id == k && ValidCategory(cats[k]) && cats[k].isDefault && cats[k].createdBy == creator
    ensures forall k, k' :: k in cats && k' in cats && k != k' ==> cats[k].name != cats[k'].name
  {
    forall k | k in cats
      ensures cats[k].id == k && ValidCategory(cats[k]) && cats[k].isDefault && cats[k].createdBy == creator
    {
      var i :| 0 <= i < |ids| && ids[i] == k;
      SeededKey(cats, seeds, ids, creator, i);
    }
    forall k, k' | k in cats && k' in cats && k != k'
      ensures cats[k].name != cats[k'].name
    {
      var i :| 0 <= i < |ids| && ids[i] == k;
      var j :| 0 <= j < |ids| && ids[j] == k';
      SeededKey(cats, seeds, ids, creator, i);
      SeededKey(cats, seeds, ids, creator, j);
      assert seeds[i].name != seeds[j].name by {
        if i < j {
          assert seeds[i].name != seeds[j].name;
        } else {
          assert seeds[j].name != seeds[i].name;
        }
      }
    }
  }

  /** Every category a seeding of an empty collection stores sits under
      its own id, is a default owned by `creator`, and saves; no two share a name. */
  lemma SeededStoreValid(db: Db, seeds: seq<Seed>, ids: seq<Id>, creator: Id)
    requires |ids| == |seeds| && FreshIds(db, ids) && |db.categories| == 0 && SeedsWellFormed(seeds)
    ensures var r := SaveEach(db, seeds, ids, creator);
            && (forall k :: k in r.categories ==> r.categories[k].id == k)
            && (forall k :: k in r.categories ==> r.categories[k].isDefault && r.categories[k].createdBy == creator)
            && CategoriesValid(r)
  {
    var r := SaveEach(db, seeds, ids, creator);
    SeedIntoEmpty(db, seeds, ids, creator);
    assert forall k :: k in r.categories ==> k in ids;
    SeededMapValid(r.categories, seeds, ids, creator);
  }

  /** A seeded store is valid, and no delete request removes a seeded
      category: its creator is told it is a default, anyone else 403. */
  lemma SeededStoreValidAndUndeletable(db: Db, users: seq<Id>, ids: seq<Id>, id: Id, requester: Id)
    requires |ids| == |Defaults| && FreshIds(db, ids)
    requires |users| > 0 && |db.categories| == 0
    ensures var r := InitializeCategories(db, users, ids);
            (forall k :: k in r.categories ==> r.categories[k].id == k) && CategoriesValid(r)
    ensures var r := InitializeCategories(db, users, ids);
            id in r.categories ==>
              DeleteCategory(r, id, requester).db == r
              && DeleteCategory(r, id, requester).reply
                 == (if requester == users[0] then BadRequest(DefaultCategory) else Forbidden)
  {
    DefaultsWellFormed();
    SeededStoreValid(db, Defaults, ids, users[0]);
  }
}
