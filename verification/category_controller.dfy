/** The category endpoints: listing by name, lookup with its component count,
    create, update and delete with their ordered guards, and per-category
    usage statistics. */
module CategoryController {

  import opened Js
  import opened Text
  import opened Http
  import opened CategorySchema
  import opened ComponentSchema
  import opened Database

  /** Request body of create; an absent or null field is `None`. */
  datatype CategoryBody = CategoryBody(
    name: Option<string>,
    description: Option<string>,
    color: Option<string>,
    icon: Option<string>)

  /** Request body of update; `description` tells undefined from null. */
  datatype CategoryPatch = CategoryPatch(
    name: Option<string>,
    description: Field<string>,
    color: Option<string>,
    icon: Option<string>)

  datatype Outcome = Outcome(reply: Reply, db: Db)

  // ---------------------------------------------------------------------
  // Saving

  /** Some category other than `self` is called `name`. */
  predicate NameTakenByOther(cats: map<Id, Category>, name: string, self: Id) {
    exists k :: k in cats && k != self && cats[k].name == name
  }

  /** `category.save()`: the schema validators (required name, colour regex)
      and the unique index on `name`; a refusal is answered with 500. */
  predicate Saves(db: Db, c: Category) {
    ValidCategory(c) && !NameTakenByOther(db.categories, c.name, c.id)
  }

  /** Saving a document the collection accepts keeps the collection valid. */
  lemma {:induction false} SavePreservesValid(db: Db, c: Category)
    requires WellFormed(db) && CategoriesValid(db) && Saves(db, c)
    ensures var db' := db.(categories := db.categories[c.id := c]);
            WellFormed(db') && CategoriesValid(db')
  {
    var db' := db.(categories := db.categories[c.id := c]);
    forall k, k' | k in db'.categories && k' in db'.categories && k != k'
      ensures db'.categories[k].name != db'.categories[k'].name
    {
      if k == c.id {
        assert !(k' in db.categories && k' != c.id && db.categories[k'].name == c.name);
      } else if k' == c.id {
        assert !(k in db.categories && k != c.id && db.categories[k].name == c.name);
      }
    }
  }

  // ---------------------------------------------------------------------
  // getCategories

  predicate SortedByName(s: seq<Category>) {
    forall i, j :: 0 <= i < j < |s| ==> StrLe(s[i].name, s[j].name)
  }

  /** Inserts `c` before the first category whose name does not sort
      below it: the old categories plus `c`, as a multiset. */
  function InsertByName(s: seq<Category>, c: Category): (r: seq<Category>)
    ensures multiset(r) == multiset(s) + multiset{c}
    ensures |r| == |s| + 1
    ensures forall x :: x in r <==> x in s || x == c
  {
    if |s| == 0 then [c]
    else if StrLe(c.name, s[0].name) then [c] + s
    else
      var t := InsertByName(s[1..], c);
      assert s == [s[0]] + s[1..];
      [s[0]] + t
  }

  /** A category whose name sorts at or below every name of a sorted
      sequence can go in front of it. */
  lemma ConsSortedByName(c: Category, s: seq<Category>)
    requires SortedByName(s)
    requires forall j :: 0 <= j < |s| ==> StrLe(c.name, s[j].name)
    ensures SortedByName([c] + s)
  {
    forall i, j | 0 <= i < j < |[c] + s|
      ensures StrLe(([c] + s)[i].name, ([c] + s)[j].name)
    {
      if i > 0 {
        assert ([c] + s)[i] == s[i - 1];
      }
      assert ([c] + s)[j] == s[j - 1];
    }
  }

  /** Inserting into a name-sorted sequence keeps it sorted. */
  lemma {:induction false} InsertByNameSorted(s: seq<Category>, c: Category)
    requires SortedByName(s)
    ensures SortedByName(InsertByName(s, c))
  {
    if |s| == 0 {
    } else if StrLe(c.name, s[0].name) {
      forall j | 0 <= j < |s|
        ensures StrLe(c.name, s[j].name)
      {
        if j > 0 {
          StrLeTransitive(c.name, s[0].name, s[j].name);
        }
      }
      ConsSortedByName(c, s);
    } else {
      var t := InsertByName(s[1..], c);
      assert SortedByName(s[1..]) by {
        forall i, j | 0 <= i < j < |s[1..]|
          ensures StrLe(s[1..][i].name, s[1..][j].name)
        {
          assert s[1..][i] == s[i + 1] && s[1..][j] == s[j + 1];
        }
      }
      InsertByNameSorted(s[1..], c);
      StrLeTotal(c.name, s[0].name);
      forall j | 0 <= j < |t|
        ensures StrLe(s[0].name, t[j].name)
      {
        assert t[j] in t;
        if t[j] != c {
          assert t[j] in s[1..];
          var m :| 0 <= m < |s[1..]| && s[1..][m] == t[j];
          assert s[m + 1] == t[j];
        }
      }
      ConsSortedByName(s[0], t);
    }
  }

  /** `GET /categories`: every category, sorted by name ascending (by code
      unit; the order of equal names is not fixed). */
  method ListCategories(db: Db) returns (r: seq<Category>)
    ensures SortedByName(r)
    ensures |r| == |db.categories|
    ensures forall k :: k in db.categories ==> db.categories[k] in r
    ensures forall i :: 0 <= i < |r| ==> r[i] in db.categories.Values
  {
    var keys := db.categories.Keys;
    r := [];
    while keys != {}
      invariant keys <= db.categories.Keys
      invariant SortedByName(r)
      invariant |r| + |keys| == |db.categories|
      invariant forall k :: k in db.categories && k !in keys ==> db.categories[k] in r
      invariant forall c :: c in r ==> c in db.categories.Values
      decreases |keys|
    {
      var k :| k in keys;
      InsertByNameSorted(r, db.categories[k]);
      var r' := InsertByName(r, db.categories[k]);
      assert db.categories[k] in db.categories.Values;
      r := r';
      keys := keys - {k};
    }
  }

  // ---------------------------------------------------------------------
  // getCategoryById

  /** `GET /categories/:id`: the category together with the number of
      components that reference it, or 404. */
  function GetCategoryById(db: Db, id: Id): (r: Result<(Category, nat), Reply>)
    ensures r.Success? <==> id in db.categories
    ensures r.Success? ==> r.value.0 == db.categories[id]
                           && (r.value.1 == 0 <==> forall k :: k in db.components ==> db.components[k].category != id)
    ensures r.Failure? ==> r.error == NotFound
  {
    if id in db.categories then
      ComponentCountZeroIff(db, id);
      Success((db.categories[id], ComponentCount(db, id)))
    else Failure(NotFound)
  }

  /** The route as requests reach it: the `:id` path segment is cast to an
      ObjectId by the lookup, and text that is not one makes it throw,
      answered with 500 before any other guard. */
  function GetCategoryAt(db: Db, id: RawId): (r: Result<(Category, nat), Reply>)
    ensures id.Malformed? ==> r == Failure(ServerError)
    ensures r.Success? <==> id.ObjectId? && id.id in db.categories
    ensures id.ObjectId? ==> r == GetCategoryById(db, id.id)
  {
    if id.Malformed? then Failure(ServerError) else GetCategoryById(db, id.id)
  }

  // ---------------------------------------------------------------------
  // createCategory

  /** The document a create builds: trimmed name and description, colour
      and icon falling back to their defaults when absent or empty, owned by
      the requester, not a default category. */
  function Draft(body: CategoryBody, user: Id, newId: Id): (c: Category)
    requires body.name.Some?
    ensures c.id == newId && c.createdBy == user && !c.isDefault
    ensures c.name == Trim(body.name.value)
    ensures c.color == (if TruthyStr(body.color) then body.color.value else DefaultColor)
    ensures c.icon == (if TruthyStr(body.icon) then body.icon.value else DefaultIcon)
  {
    NewCategory(newId, body.name.value, body.description,
                if TruthyStr(body.color) then body.color else None,
                if TruthyStr(body.icon) then body.icon else None,
                user, None)
  }

  /** `POST /categories`. A missing name throws (500); a taken trimmed name
      is 400; a document the schema refuses (blank name, bad colour) is 500;
      otherwise it is stored under the fresh id. */
  function CreateCategory(db: Db, body: CategoryBody, user: Id, newId: Id): (o: Outcome)
    requires newId !in db.categories
    ensures body.name.None? ==> o == Outcome(ServerError, db)
    ensures (body.name.Some? && NameTaken(db.categories, Trim(body.name.value)))
              ==> o == Outcome(BadRequest(DuplicateName), db)
    ensures o.reply != Created ==> o.db == db
    ensures o.reply.Created? <==>
              && body.name.Some? && !NameTaken(db.categories, Trim(body.name.value))
              && !IsBlank(body.name.value)
              && ValidColor(if TruthyStr(body.color) then body.color.value else DefaultColor)
    ensures o.reply.Created? ==>
              o.db == db.(categories := db.categories[newId := Draft(body, user, newId)])
  {
    if body.name.None? then Outcome(ServerError, db)
    else if NameTaken(db.categories, Trim(body.name.value)) then Outcome(BadRequest(DuplicateName), db)
    else
      var c := Draft(body, user, newId);
      TrimEmptyIffBlank(body.name.value);
      if Saves(db, c) then Outcome(Created, db.(categories := db.categories[newId := c]))
      else Outcome(ServerError, db)
  }

  /** A created category is stored trimmed, is not a default, and keeps the
      collection valid: no duplicate names, every stored colour accepted. */
  lemma {:induction false} CreateCategoryPreservesValid(db: Db, body: CategoryBody, user: Id, newId: Id)
    requires newId !in db.categories
    requires WellFormed(db) && CategoriesValid(db) && RefsValid(db)
    ensures var o := CreateCategory(db, body, user, newId);
            WellFormed(o.db) && CategoriesValid(o.db) && RefsValid(o.db)
  {
    var o := CreateCategory(db, body, user, newId);
    if o.reply.Created? {
      var c := Draft(body, user, newId);
      TrimEmptyIffBlank(body.name.value);
      SavePreservesValid(db, c);
    }
  }

  // ---------------------------------------------------------------------
  // updateCategory

  /** The assignments of an update: name (trimmed), colour and icon only when
      truthy; the description whenever it is not undefined (null clears it). */
  function Patched(c: Category, p: CategoryPatch): (r: Category)
    ensures r.id == c.id && r.createdBy == c.createdBy && r.isDefault == c.isDefault
    ensures r.name == (if TruthyStr(p.name) then Trim(p.name.value) else c.name)
    ensures p.description.Undefined? ==> r.description == c.description
    ensures p.description.Null? ==> r.description.None?
    ensures p.description.Given? ==> r.description == Some(Trim(p.description.value))
    ensures r.color == (if TruthyStr(p.color) then p.color.value else c.color)
    ensures r.icon == (if TruthyStr(p.icon) then p.icon.value else c.icon)
  {
    c.(
      name := if TruthyStr(p.name) then Trim(p.name.value) else c.name,
      description := match p.description
                     case Undefined => c.description
                     case Null => None
                     case Given(d) => Some(Trim(d)),
      color := if TruthyStr(p.color) then p.color.value else c.color,
      icon := if TruthyStr(p.icon) then p.icon.value else c.icon)
  }

  /** `PUT /categories/:id`. Guards in order: 404, 403 unless the requester
      created it, 400 when a truthy new name, once trimmed, differs from the
      current one and another category already has it. Then the patch is
      saved (500 if refused). */
  function UpdateCategory(db: Db, id: Id, p: CategoryPatch, user: Id): (o: Outcome)
    requires WellFormed(db)
    ensures id !in db.categories ==> o == Outcome(NotFound, db)
    ensures (id in db.categories && db.categories[id].createdBy != user) ==> o == Outcome(Forbidden, db)
    ensures o.reply == BadRequest(DuplicateName) <==>
              && id in db.categories && db.categories[id].createdBy == user
              && TruthyStr(p.name) && Trim(p.name.value) != db.categories[id].name
              && NameTakenByOther(db.categories, Trim(p.name.value), id)
    ensures o.reply != Ok ==> o.db == db
    ensures o.reply.Ok? <==>
              && id in db.categories && db.categories[id].createdBy == user
              && !(TruthyStr(p.name) && Trim(p.name.value) != db.categories[id].name
                   && NameTakenByOther(db.categories, Trim(p.name.value), id))
              && Saves(db, Patched(db.categories[id], p))
    ensures o.reply.Ok? ==>
              o.db == db.(categories := db.categories[id := Patched(db.categories[id], p)])
  {
    if id !in db.categories then Outcome(NotFound, db)
    else
      var c := db.categories[id];
      if c.createdBy != user then Outcome(Forbidden, db)
      else if TruthyStr(p.name) && Trim(p.name.value) != c.name
              && NameTakenByOther(db.categories, Trim(p.name.value), id) then
        Outcome(BadRequest(DuplicateName), db)
      else
        var c' := Patched(c, p);
        if Saves(db, c') then Outcome(Ok, db.(categories := db.categories[id := c']))
        else Outcome(ServerError, db)
  }

  /** The route as requests reach it: a path id that is not an ObjectId
      makes the lookup throw (500) and nothing changes. */
  function UpdateCategoryAt(db: Db, id: RawId, p: CategoryPatch, user: Id): (o: Outcome)
    requires WellFormed(db)
    ensures id.Malformed? ==> o == Outcome(ServerError, db)
    ensures id.ObjectId? ==> o == UpdateCategory(db, id.id, p, user)
    ensures o.reply != Ok ==> o.db == db
  {
    if id.Malformed? then Outcome(ServerError, db) else UpdateCategory(db, id.id, p, user)
  }

  /** Re-sending a category's own name (even padded with spaces) is never a
      duplicate: the uniqueness check only runs for a different name. */
  lemma {:induction false} SameNameNeverDuplicate(db: Db, id: Id, p: CategoryPatch, user: Id)
    requires WellFormed(db) && id in db.categories
    requires p.name.Some? && Trim(p.name.value) == db.categories[id].name
    ensures UpdateCategory(db, id, p, user).reply != BadRequest(DuplicateName)
  {
  }

  /** An update keeps the collection valid and every component's category reference intact. */
  lemma {:induction false} UpdateCategoryPreservesValid(db: Db, id: Id, p: CategoryPatch, user: Id)
    requires WellFormed(db) && CategoriesValid(db) && RefsValid(db)
    ensures var o := UpdateCategory(db, id, p, user);
            WellFormed(o.db) && CategoriesValid(o.db) && RefsValid(o.db)
  {
    var o := UpdateCategory(db, id, p, user);
    if o.reply.Ok? {
      SavePreservesValid(db, Patched(db.categories[id], p));
    }
  }

  // ---------------------------------------------------------------------
  // deleteCategory

  /** `DELETE /categories/:id`. Guards in order: 404, 403 unless the
      requester created it, 400 for a default category, 400 (with the count)
      while components reference it; otherwise exactly it is removed. */
  function DeleteCategory(db: Db, id: Id, user: Id): (o: Outcome)
    ensures id !in db.categories ==> o == Outcome(NotFound, db)
    ensures (id in db.categories && db.categories[id].createdBy != user) ==> o == Outcome(Forbidden, db)
    ensures (id in db.categories && db.categories[id].createdBy == user && db.categories[id].isDefault)
              ==> o == Outcome(BadRequest(DefaultCategory), db)
    ensures (id in db.categories && db.categories[id].createdBy == user && !db.categories[id].isDefault
             && ComponentCount(db, id) > 0)
              ==> o == Outcome(BadRequest(CategoryInUse(ComponentCount(db, id))), db)
    ensures o.reply != Ok ==> o.db == db
    ensures o.reply.Ok? <==>
              && id in db.categories && db.categories[id].createdBy == user && !db.categories[id].isDefault
              && forall k :: k in db.components ==> db.components[k].category != id
    ensures o.reply.Ok? ==> o.db == db.(categories := db.categories - {id})
  {
    ComponentCountZeroIff(db, id);
    if id !in db.categories then Outcome(NotFound, db)
    else
      var c := db.categories[id];
      if c.createdBy != user then Outcome(Forbidden, db)
      else if c.isDefault then Outcome(BadRequest(DefaultCategory), db)
      else
        var n := ComponentCount(db, id);
        if n > 0 then Outcome(BadRequest(CategoryInUse(n)), db)
        else Outcome(Ok, db.(categories := db.categories - {id}))
  }

  /** The route as requests reach it: a path id that is not an ObjectId
      makes the lookup throw (500) and nothing is deleted. */
  function DeleteCategoryAt(db: Db, id: RawId, user: Id): (o: Outcome)
    ensures id.Malformed? ==> o == Outcome(ServerError, db)
    ensures id.ObjectId? ==> o == DeleteCategory(db, id.id, user)
    ensures o.reply.Ok? ==> id.ObjectId? && id.id in db.categories && id.id !in o.db.categories
  {
    if id.Malformed? then Outcome(ServerError, db) else DeleteCategory(db, id.id, user)
  }

  /** A default category survives every delete request. */
  lemma DefaultCategoryNeverDeleted(db: Db, id: Id, user: Id)
    requires id in db.categories && db.categories[id].isDefault
    ensures var o := DeleteCategory(db, id, user);
            o.db == db && id in o.db.categories
  {
  }

  /** Deleting never leaves a component pointing at a missing category. */
  lemma {:induction false} DeleteCategoryPreservesValid(db: Db, id: Id, user: Id)
    requires WellFormed(db) && CategoriesValid(db) && RefsValid(db)
    ensures var o := DeleteCategory(db, id, user);
            WellFormed(o.db) && CategoriesValid(o.db) && RefsValid(o.db)
  {
    var o := DeleteCategory(db, id, user);
    if o.reply.Ok? {
      forall k | k in o.db.components
        ensures o.db.components[k].category in o.db.categories
      {
        assert db.components[k].category != id;
      }
    }
  }

  // ---------------------------------------------------------------------
  // getCategoryStats

  /** One row of the statistics: the category's id, name, colour and icon
      with the number of components in it. */
  datatype StatEntry = StatEntry(id: Id, name: string, color: string, icon: string, count: nat)

  predicate SortedByCountDesc(s: seq<StatEntry>) {
    forall i, j :: 0 <= i < j < |s| ==> s[i].count >= s[j].count
  }

  predicate DistinctIds(s: seq<StatEntry>) {
    forall i, j :: 0 <= i < j < |s| ==> s[i].id != s[j].id
  }

  /** Inserts `e` into a count-descending sequence, keeping it sorted. */
  function InsertByCount(s: seq<StatEntry>, e: StatEntry): (r: seq<StatEntry>)
    requires SortedByCountDesc(s)
    ensures SortedByCountDesc(r)
    ensures |r| == |s| + 1
    ensures forall x :: x in r <==> x in s || x == e
  {
    if |s| == 0 || e.count >= s[0].count then [e] + s
    else
      var t := InsertByCount(s[1..], e);
      assert s == [s[0]] + s[1..];
      forall j | 0 <= j < |t|
        ensures s[0].count >= t[j].count
      {
        assert t[j] in t;
        if t[j] != e {
          var m :| 0 <= m < |s[1..]| && s[1..][m] == t[j];
          assert s[m + 1] == t[j];
        }
      }
      [s[0]] + t
  }

  /** Inserting an entry whose id is new keeps the ids pairwise distinct. */
  lemma {:induction false} InsertByCountKeepsDistinct(s: seq<StatEntry>, e: StatEntry)
    requires SortedByCountDesc(s) && DistinctIds(s)
    requires forall x :: x in s ==> x.id != e.id
    ensures DistinctIds(InsertByCount(s, e))
  {
    if |s| == 0 || e.count >= s[0].count {
    } else {
      var t := InsertByCount(s[1..], e);
      assert s == [s[0]] + s[1..];
      InsertByCountKeepsDistinct(s[1..], e);
      forall j | 0 <= j < |t|
        ensures s[0].id != t[j].id
      {
        assert t[j] in t;
        if t[j] != e {
          var m :| 0 <= m < |s[1..]| && s[1..][m] == t[j];
          assert s[m + 1] == t[j];
        }
      }
      assert InsertByCount(s, e) == [s[0]] + t;
    }
  }

  function EntryOf(db: Db, k: Id): StatEntry
    requires k in db.categories
  {
    var c := db.categories[k];
    StatEntry(k, c.name, c.color, c.icon, ComponentCount(db, k))
  }

  /** `GET /categories/stats`: one entry per existing category that has at
      least one component, with its count, most used first. Components whose
      category no longer exists are not counted anywhere. */
  method GetCategoryStats(db: Db) returns (stats: seq<StatEntry>)
    ensures SortedByCountDesc(stats)
    ensures forall i :: 0 <= i < |stats| ==>
              stats[i].id in db.categories && stats[i] == EntryOf(db, stats[i].id) && stats[i].count > 0
    ensures forall k :: k in db.categories && ComponentCount(db, k) > 0 ==> EntryOf(db, k) in stats
    ensures DistinctIds(stats)
  {
    var keys := db.categories.Keys;
    stats := [];
    while keys != {}
      invariant keys <= db.categories.Keys
      invariant SortedByCountDesc(stats)
      invariant forall x :: x in stats ==>
                  x.id in db.categories && x.id !in keys && x == EntryOf(db, x.id) && x.count > 0
      invariant forall k :: k in db.categories && k !in keys && ComponentCount(db, k) > 0 ==> EntryOf(db, k) in stats
      invariant DistinctIds(stats)
      decreases |keys|
    {
      var k :| k in keys;
      var e := EntryOf(db, k);
      if e.count > 0 {
        InsertByCountKeepsDistinct(stats, e);
        var s' := InsertByCount(stats, e);
        stats := s';
      }
      keys := keys - {k};
    }
  }
}
