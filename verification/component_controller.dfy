/** The component endpoints: listing with filters and pagination, lookup,
    create, update and delete with their ordered guards, and the tag list. */
module ComponentController {

  import opened Js
  import opened Text
  import opened JsObject
  import opened Http
  import opened ComponentSchema
  import opened Database

  /** Request body of create and update. `category` is `None` when missing or
      null; array fields are truthy whenever present, even when empty. */
  datatype ComponentBody = ComponentBody(
    name: Option<string>,
    description: Option<string>,
    category: Option<RawId>,
    tags: Option<seq<string>>,
    files: Option<seq<FileInput>>,
    dependencies: Option<seq<Dependency>>)

  /** The answer together with the store after the request. */
  datatype Outcome = Outcome(reply: Reply, db: Db)

  // ---------------------------------------------------------------------
  // getComponents

  /** Query string of the listing. Every value is text; `page` and `limit`
      are turned into numbers by the arithmetic that uses them. */
  datatype ListQuery = ListQuery(
    search: Option<string>,
    category: Option<RawId>,
    tags: Option<string>,
    page: Option<string>,
    limit: Option<string>,
    sortBy: Option<string>,
    sortOrder: Option<string>)

  /** The Mongo filter document: a condition is present only for a truthy
      parameter. The category is kept as sent; it is cast when the query runs. */
  datatype Filter = Filter(text: Option<string>, category: Option<RawId>, tags: Option<seq<string>>)

  datatype SortSpec = SortSpec(field: string, descending: bool)

  const DefaultPage: int := 1
  const DefaultLimit: int := 10
  const DefaultSortBy: string := "createdAt"
  const DefaultSortOrder: string := "desc"

  /** `tags.split(',').map(tag => tag.trim())`: empty pieces are kept. */
  function TagFilterList(tags: string): (r: seq<string>)
    ensures |r| == |Split(tags, ',')| >= 1
    ensures forall i :: 0 <= i < |r| ==> r[i] == Trim(Split(tags, ',')[i]) && ',' !in r[i]
  {
    var pieces := Split(tags, ',');
    var r := TrimAll(pieces);
    assert forall i :: 0 <= i < |r| ==> ',' !in r[i] by {
      forall i | 0 <= i < |r|
        ensures ',' !in r[i]
      {
        TrimKeepsAbsent(pieces[i], ',');
      }
    }
    r
  }

  function BuildFilter(q: ListQuery): (f: Filter)
    ensures f.text.Some? <==> TruthyStr(q.search)
    ensures f.text.Some? ==> f.text.value == q.search.value
    ensures f.category.Some? <==> TruthyId(q.category)
    ensures f.category.Some? ==> f.category == q.category
    ensures f.tags.Some? <==> TruthyStr(q.tags)
    ensures f.tags.Some? ==> f.tags.value == TagFilterList(q.tags.value)
  {
    Filter(
      if TruthyStr(q.search) then q.search else None,
      if TruthyId(q.category) then q.category else None,
      if TruthyStr(q.tags) then Some(TagFilterList(q.tags.value)) else None)
  }

  /** Running the filter throws a cast error: its category is text that is
      not an ObjectId. */
  predicate CastFails(f: Filter) {
    f.category.Some? && f.category.value.Malformed?
  }

  /** The sort document: `sortBy` (default `createdAt`), descending exactly
      when `sortOrder` is `'desc'` (its default), ascending for anything else. */
  function SortOf(q: ListQuery): (s: SortSpec)
    ensures s.field == (if q.sortBy.Some? then q.sortBy.value else "createdAt")
    ensures s.descending <==> q.sortOrder.None? || q.sortOrder.value == "desc"
  {
    SortSpec(q.sortBy.GetOr(DefaultSortBy), q.sortOrder.GetOr(DefaultSortOrder) == "desc")
  }

  /** Whether one component satisfies the filter. Text search is an oracle:
      the `$text` index semantics are not modelled. A category that is not an
      ObjectId matches nothing (the query throws before it is run). */
  predicate Matches(f: Filter, c: Component, textMatch: (string, Component) -> bool) {
    && (f.text.None? || textMatch(f.text.value, c))
    && (f.category.None? || (f.category.value.ObjectId? && c.category == f.category.value.id))
    && (f.tags.None? || exists t :: t in c.tags && t in f.tags.value)
  }

  /** The matching components, in the order the database sorted them. */
  function Select(ordered: seq<Component>, f: Filter, textMatch: (string, Component) -> bool): (r: seq<Component>)
    ensures |r| <= |ordered|
    ensures forall c :: c in r <==> c in ordered && Matches(f, c, textMatch)
  {
    if |ordered| == 0 then []
    else
      var rest := Select(ordered[1..], f, textMatch);
      assert forall c :: c in ordered <==> c == ordered[0] || c in ordered[1..];
      if Matches(f, ordered[0], textMatch) then [ordered[0]] + rest else rest
  }

  /** A single component is kept exactly when it matches. */
  lemma SelectOne(c: Component, f: Filter, textMatch: (string, Component) -> bool)
    ensures Select([c], f, textMatch) == if Matches(f, c, textMatch) then [c] else []
  {
    assert [c][1..] == [];
  }

  /** Selection keeps the database order: selecting from two consecutive
      runs is selecting from each and concatenating. */
  lemma {:induction false} SelectAppend(a: seq<Component>, b: seq<Component>, f: Filter,
                                        textMatch: (string, Component) -> bool)
    ensures Select(a + b, f, textMatch) == Select(a, f, textMatch) + Select(b, f, textMatch)
  {
    if a == [] {
      assert a + b == b;
    } else {
      assert (a + b)[1..] == a[1..] + b;
      SelectAppend(a[1..], b, f, textMatch);
    }
  }

  /** `Math.ceil(total / limit)` for a positive limit. */
  function CeilDiv(total: nat, limit: nat): (pages: nat)
    requires limit > 0
    ensures pages * limit >= total
    ensures pages > 0 ==> (pages - 1) * limit < total
  {
    (total + limit - 1) / limit
  }

  /** `Math.ceil(total / limit)` for a non-zero limit of either sign: the
      least integer at or above the quotient. */
  function CeilQuotient(total: nat, limit: int): (r: int)
    requires limit != 0
    ensures limit > 0 ==> (r - 1) * limit < total <= r * limit
    ensures limit < 0 ==> r * limit <= total < (r - 1) * limit
  {
    if limit > 0 then
      var r := CeilDiv(total, limit);
      assert total > 0 ==> r > 0;
      r
    else
      var m := -limit;
      var q := total / m;
      assert q * m <= total < (q + 1) * m;
      assert -q * limit == q * m && (-q - 1) * limit == (q + 1) * m;
      -q
  }

  /** The response: the page of components, `current` echoing the page as
      sent (the number 1 when none was), `pages` (null when the limit is 0)
      and the total count. */
  datatype Listing = Listing(data: seq<Component>, current: Value, pages: Option<int>, total: nat)

  function Min(a: int, b: int): int {
    if a <= b then a else b
  }

  function Abs(n: int): (r: nat)
    ensures r == n || r == -n
  {
    if n < 0 then -n else n
  }

  /** `.skip(skip).limit(limit)` on the matches (a limit of 0 means no limit):
      the matches from position `skip` on, at most `limit` of them, and
      fewer only when the matches run out. */
  function PageOf<T>(matched: seq<T>, skip: nat, limit: nat): (data: seq<T>)
    ensures limit > 0 ==> |data| <= limit
    ensures forall i :: 0 <= i < |data| ==> skip + i < |matched| && data[i] == matched[skip + i]
    ensures skip + |data| < |matched| ==> limit > 0 && |data| == limit
  {
    var from := Min(skip, |matched|);
    var to := if limit == 0 then |matched| else Min(skip + limit, |matched|);
    matched[from..to]
  }

  /** The query's `page` and `limit` read as numbers by `Number`: integer
      text (blank text counts as 0). */
  predicate NumericQuery(q: ListQuery) {
    && (q.page.Some? ==> NumberOf(q.page.value).Some?)
    && (q.limit.Some? ==> NumberOf(q.limit.value).Some?)
  }

  /** `page` as the arithmetic `page - 1` sees it: the number 1 when absent. */
  function PageNumber(q: ListQuery): (n: int)
    requires NumericQuery(q)
    ensures q.page.None? ==> n == DefaultPage
    ensures q.page.Some? ==> Some(n) == NumberOf(q.page.value)
  {
    if q.page.Some? then NumberOf(q.page.value).value else DefaultPage
  }

  /** `limit` as `limit * 1` sees it: the number 10 when absent. */
  function LimitNumber(q: ListQuery): (n: int)
    requires NumericQuery(q)
    ensures q.limit.None? ==> n == DefaultLimit
    ensures q.limit.Some? ==> Some(n) == NumberOf(q.limit.value)
  {
    if q.limit.Some? then NumberOf(q.limit.value).value else DefaultLimit
  }

  /** `l` is the answer for the matches `matched` under `skip` and `limit`:
      the total counts every match, `pages` is `Math.ceil(total / limit)`
      (null when the limit is 0), and the data are the matches from position
      `skip` on, at most `|limit|` of them and fewer only when the matches
      run out (a limit of 0 means no limit). */
  predicate PagedAnswer(l: Listing, matched: seq<Component>, skip: int, limit: int) {
    && l.total == |matched|
    && (l.pages.None? <==> limit == 0)
    && (limit != 0 ==> l.pages == Some(CeilQuotient(|matched|, limit)) && |l.data| <= Abs(limit))
    && (forall i :: 0 <= i < |l.data| ==> 0 <= skip + i < |matched| && l.data[i] == matched[skip + i])
    && (skip + |l.data| < |matched| ==> limit != 0 && |l.data| == Abs(limit))
  }

  /** The page `PageOf` cuts, with the total and the page count, is the
      answer `PagedAnswer` describes. */
  lemma PageOfIsPagedAnswer(matched: seq<Component>, skip: nat, limit: int, current: Value)
    ensures var pages := if limit == 0 then None else Some(CeilQuotient(|matched|, limit));
            PagedAnswer(Listing(PageOf(matched, skip, Abs(limit)), current, pages, |matched|), matched, skip, limit)
  {
  }

  /** `GET /components`. `ordered` is the whole collection in the order the
      requested sort produces. Skips `(page - 1) * limit` matches and returns
      at most `|limit|` of them: a limit of 0 means no limit, and a negative
      one asks the database for a single batch of that many. `current` is
      the page as it arrived. A category that is not an ObjectId and a
      negative skip make the query fail, answered with 500. */
  function GetComponents(ordered: seq<Component>, q: ListQuery, textMatch: (string, Component) -> bool)
    : (r: Result<Listing, Reply>)
    requires NumericQuery(q)
    ensures var skip := (PageNumber(q) - 1) * LimitNumber(q);
            && (r.Failure? <==> CastFails(BuildFilter(q)) || skip < 0)
            && (r.Failure? ==> r.error == ServerError)
            && (r.Success? ==>
                  && r.value.current == (if q.page.Some? then Str(q.page.value) else Num(DefaultPage))
                  && PagedAnswer(r.value, Select(ordered, BuildFilter(q), textMatch), skip, LimitNumber(q)))
  {
    var f := BuildFilter(q);
    var limit := LimitNumber(q);
    var matched := Select(ordered, f, textMatch);
    var skip := (PageNumber(q) - 1) * limit;
    if CastFails(f) || skip < 0 then Failure(ServerError)
    else
      var current := if q.page.Some? then Str(q.page.value) else Num(DefaultPage);
      PageOfIsPagedAnswer(matched, skip, limit, current);
      Success(Listing(PageOf(matched, skip, Abs(limit)), current,
                      if limit == 0 then None else Some(CeilQuotient(|matched|, limit)),
                      |matched|))
  }

  // ---------------------------------------------------------------------
  // getComponentById

  /** `GET /components/:id`: 500 when the path id is not an ObjectId (the
      lookup throws a cast error), 404 when no component has it. */
  function GetComponentById(db: Db, id: RawId): (r: Result<Component, Reply>)
    ensures id.Malformed? ==> r == Failure(ServerError)
    ensures r.Success? <==> id.ObjectId? && id.id in db.components
    ensures r.Success? ==> r.value == db.components[id.id]
    ensures id.ObjectId? && id.id !in db.components ==> r == Failure(NotFound)
  {
    match id
    case Malformed(_) => Failure(ServerError)
    case ObjectId(k) => if k in db.components then Success(db.components[k]) else Failure(NotFound)
  }

  // ---------------------------------------------------------------------
  // createComponent

  /** `db'` is `db` with one component added under the fresh id `k`:
      categories and every other component untouched. */
  predicate Inserted(db: Db, db': Db, k: Id) {
    && db'.categories == db.categories
    && db'.components.Keys == db.components.Keys + {k}
    && forall j :: j in db.components ==> db'.components[j] == db.components[j]
  }

  lemma InsertIsInserted(db: Db, k: Id, c: Component)
    requires k !in db.components
    ensures Inserted(db, db.(components := db.components[k := c]), k)
  {
  }

  /** The body names a category that exists. */
  predicate KnownCategory(db: Db, category: RawId) {
    category.ObjectId? && category.id in db.categories
  }

  /** The document `new Component({...})` would save for this body, owned
      by `user`; absent tags and dependencies become `[]`. */
  function Built(body: ComponentBody, user: Id, newId: Id): Option<Component>
    requires body.category.Some? && body.category.value.ObjectId? && body.files.Some?
  {
    BuildComponent(newId, body.name, body.description, body.category.value.id,
                   body.tags.GetOr([]), body.files.value, body.dependencies.GetOr([]), user)
  }

  /** `POST /components`. The category is looked up first: a missing one or
      an ObjectId no category has is refused (400), other text makes the
      lookup throw (500). Then the presence of a main file (400; a missing
      `files` array throws, 500), then the schema (500). On success the new
      document, owned by the requester, with `[]` for absent tags and
      dependencies, is stored under the fresh id the database assigns. */
  function CreateComponent(db: Db, body: ComponentBody, user: Id, newId: Id): (o: Outcome)
    requires newId !in db.components
    ensures (body.category.None? || (body.category.value.ObjectId? && body.category.value.id !in db.categories))
              ==> o == Outcome(BadRequest(InvalidCategory), db)
    ensures body.category.Some? && body.category.value.Malformed? ==> o == Outcome(ServerError, db)
    ensures (body.category.Some? && KnownCategory(db, body.category.value) && body.files.Some?
             && !HasMainInput(body.files.value))
              ==> o == Outcome(BadRequest(NoMainFile), db)
    ensures o.reply != Created ==> o.db == db
    ensures o.reply.Created? <==>
              && body.category.Some? && KnownCategory(db, body.category.value)
              && body.files.Some? && HasMainInput(body.files.value)
              && Built(body, user, newId).Some?
    ensures o.reply.Created? ==> Inserted(db, o.db, newId) && Some(o.db.components[newId]) == Built(body, user, newId)
  {
    if body.category.None? then Outcome(BadRequest(InvalidCategory), db)
    else if body.category.value.Malformed? then Outcome(ServerError, db)
    else if body.category.value.id !in db.categories then Outcome(BadRequest(InvalidCategory), db)
    else if body.files.None? then
      Outcome(ServerError, db)
    else if !HasMainInput(body.files.value) then
      Outcome(BadRequest(NoMainFile), db)
    else
      match Built(body, user, newId)
      case None => Outcome(ServerError, db)
      case Some(c) =>
        InsertIsInserted(db, newId, c);
        Outcome(Created, db.(components := db.components[newId := c]))
  }

  /** What a successful create stores: a valid document owned by the
      requester, in the requested category, with a main file, version
      "1.0.0", public, and `[]` for the tags and dependencies it omitted. */
  lemma CreatedComponentShape(db: Db, body: ComponentBody, user: Id, newId: Id)
    requires newId !in db.components
    requires CreateComponent(db, body, user, newId).reply.Created?
    ensures var c := CreateComponent(db, body, user, newId).db.components[newId];
            && ValidComponent(c) && c.id == newId
            && body.category == Some(ObjectId(c.category)) && c.createdBy == user
            && c.version == DefaultVersion && c.isPublic
            && (body.tags.None? ==> c.tags == []) && (body.dependencies.None? ==> c.dependencies == [])
            && exists i :: 0 <= i < |c.files| && c.files[i].isMain
  {
    var c := CreateComponent(db, body, user, newId).db.components[newId];
    CastKeepsMainFlags(body.files.value);
    assert exists i :: 0 <= i < |c.files| && c.files[i].isMain;
  }

  // ---------------------------------------------------------------------
  // updateComponent

  /** The field assignments of an update: each field is overwritten only when
      the body carries a truthy value for it (the schema setters trim name,
      description and tags; files are cast). `None` when a value does not
      cast: files that fail the file schema, or a truthy category that is not
      an ObjectId. */
  function ApplyUpdate(c: Component, body: ComponentBody): (r: Option<Component>)
    ensures r.Some? <==> (body.files.None? || CastFiles(body.files.value).Some?)
                         && !(TruthyId(body.category) && body.category.value.Malformed?)
    ensures r.Some? ==>
              && r.value.id == c.id && r.value.createdBy == c.createdBy
              && r.value.version == c.version && r.value.isPublic == c.isPublic
              && r.value.name == (if TruthyStr(body.name) then Trim(body.name.value) else c.name)
              && r.value.description == (if TruthyStr(body.description) then Trim(body.description.value) else c.description)
              && r.value.category == (if TruthyId(body.category) then body.category.value.id else c.category)
              && r.value.tags == (if body.tags.Some? then TrimAll(body.tags.value) else c.tags)
              && (body.files.None? ==> r.value.files == c.files)
              && (body.files.Some? ==> Some(r.value.files) == CastFiles(body.files.value))
              && r.value.dependencies == (if body.dependencies.Some? then body.dependencies.value else c.dependencies)
  {
    var files := if body.files.Some? then CastFiles(body.files.value) else Some(c.files);
    var category := if !TruthyId(body.category) then Some(c.category)
                    else if body.category.value.ObjectId? then Some(body.category.value.id)
                    else None;
    if files.None? || category.None? then None
    else
      Some(c.(
        name := if TruthyStr(body.name) then Trim(body.name.value) else c.name,
        description := if TruthyStr(body.description) then Trim(body.description.value) else c.description,
        category := category.value,
        tags := if body.tags.Some? then TrimAll(body.tags.value) else c.tags,
        files := files.value,
        dependencies := if body.dependencies.Some? then body.dependencies.value else c.dependencies))
  }

  /** The guards of an update that pass for `c`: the requester created it, a
      truthy category exists, and given files hold a main file. */
  predicate UpdateAllowed(db: Db, c: Component, body: ComponentBody, user: Id) {
    && c.createdBy == user
    && (TruthyId(body.category) ==> KnownCategory(db, body.category.value))
    && (body.files.Some? ==> HasMainInput(body.files.value))
  }

  /** `PUT /components/:id`. Guards in order: 500 for a path id that is not
      an ObjectId, 404 missing, 403 not the creator; a truthy category is
      looked up (500 when it is not an ObjectId, 400 when no category has
      it); 400 no main file (only when files are given); then the partial
      update, which a failing schema validation turns into 500. Only the
      target document can change. */
  function UpdateComponent(db: Db, id: RawId, body: ComponentBody, user: Id): (o: Outcome)
    ensures id.Malformed? ==> o == Outcome(ServerError, db)
    ensures id.ObjectId? && id.id !in db.components ==> o == Outcome(NotFound, db)
    ensures (id.ObjectId? && id.id in db.components && db.components[id.id].createdBy != user)
              ==> o == Outcome(Forbidden, db)
    ensures (id.ObjectId? && id.id in db.components && db.components[id.id].createdBy == user
             && TruthyId(body.category))
              ==> (body.category.value.Malformed? ==> o == Outcome(ServerError, db))
                  && (body.category.value.ObjectId? && body.category.value.id !in db.categories
                      ==> o == Outcome(BadRequest(InvalidCategory), db))
    ensures (id.ObjectId? && id.id in db.components && db.components[id.id].createdBy == user
             && (TruthyId(body.category) ==> KnownCategory(db, body.category.value))
             && body.files.Some? && !HasMainInput(body.files.value))
              ==> o == Outcome(BadRequest(NoMainFile), db)
    ensures o.reply != Ok ==> o.db == db
    ensures o.reply.Ok? <==>
              && id.ObjectId? && id.id in db.components
              && UpdateAllowed(db, db.components[id.id], body, user)
              && ApplyUpdate(db.components[id.id], body).Some?
              && ValidComponent(ApplyUpdate(db.components[id.id], body).value)
    ensures o.reply.Ok? ==>
              && o.db.categories == db.categories
              && o.db.components.Keys == db.components.Keys
              && (forall k :: k in db.components && k != id.id ==> o.db.components[k] == db.components[k])
              && Some(o.db.components[id.id]) == ApplyUpdate(db.components[id.id], body)
  {
    if id.Malformed? then Outcome(ServerError, db)
    else if id.id !in db.components then Outcome(NotFound, db)
    else
      var c := db.components[id.id];
      if c.createdBy != user then Outcome(Forbidden, db)
      else if TruthyId(body.category) && body.category.value.Malformed? then Outcome(ServerError, db)
      else if TruthyId(body.category) && body.category.value.id !in db.categories then
        Outcome(BadRequest(InvalidCategory), db)
      else if body.files.Some? && !HasMainInput(body.files.value) then
        Outcome(BadRequest(NoMainFile), db)
      else
        match ApplyUpdate(c, body)
        case None => Outcome(ServerError, db)
        case Some(c') =>
          if ValidComponent(c') then Outcome(Ok, db.(components := db.components[id.id := c']))
          else Outcome(ServerError, db)
  }

  /** A body that supplies nothing truthy leaves the stored document as it was. */
  lemma EmptyUpdateChangesNothing(db: Db, id: Id, user: Id)
    requires id in db.components && db.components[id].createdBy == user
    requires ValidComponent(db.components[id])
    ensures UpdateComponent(db, ObjectId(id), ComponentBody(None, None, None, None, None, None), user) == Outcome(Ok, db)
  {
    var c := db.components[id];
    var body := ComponentBody(None, None, None, None, None, None);
    assert ApplyUpdate(c, body) == Some(c);
    assert db.components[id := c] == db.components;
  }

  // ---------------------------------------------------------------------
  // deleteComponent

  /** `DELETE /components/:id`: 500 for a path id that is not an ObjectId,
      404 when missing, 403 unless the requester created it, otherwise
      exactly that component is removed. */
  function DeleteComponent(db: Db, id: RawId, user: Id): (o: Outcome)
    ensures id.Malformed? ==> o == Outcome(ServerError, db)
    ensures id.ObjectId? && id.id !in db.components ==> o == Outcome(NotFound, db)
    ensures (id.ObjectId? && id.id in db.components && db.components[id.id].createdBy != user)
              ==> o == Outcome(Forbidden, db)
    ensures o.reply.Ok? <==> id.ObjectId? && id.id in db.components && db.components[id.id].createdBy == user
    ensures !o.reply.Ok? ==> o.db == db
    ensures o.reply.Ok? ==> o.db.categories == db.categories
                            && o.db.components.Keys == db.components.Keys - {id.id}
                            && forall k :: k in o.db.components ==> o.db.components[k] == db.components[k]
  {
    if id.Malformed? then Outcome(ServerError, db)
    else if id.id !in db.components then Outcome(NotFound, db)
    else if db.components[id.id].createdBy != user then Outcome(Forbidden, db)
    else Outcome(Ok, db.(components := db.components - {id.id}))
  }

  // ---------------------------------------------------------------------
  // getTags

  /** `Component.distinct('tags')`: every tag of every component, once. */
  function DistinctTags(db: Db): set<string> {
    set k, t | k in db.components && t in db.components[k].tags :: t
  }

  /** `GET /components/tags`: the distinct tags minus those that are empty
      or whitespace-only. */
  function GetTags(db: Db): (r: set<string>)
    ensures forall t :: t in r ==> t != "" && Trim(t) != ""
    ensures forall k, t :: k in db.components && t in db.components[k].tags && Trim(t) != "" ==> t in r
    ensures r <= DistinctTags(db)
  {
    var r := set t | t in DistinctTags(db) && !IsBlank(t);
    assert forall t :: t in r ==> Trim(t) != "" by {
      forall t | t in r
        ensures Trim(t) != ""
      {
        TrimEmptyIffBlank(t);
      }
    }
    assert forall k, t :: k in db.components && t in db.components[k].tags && Trim(t) != "" ==> t in r by {
      forall k, t | k in db.components && t in db.components[k].tags && Trim(t) != ""
        ensures t in r
      {
        TrimEmptyIffBlank(t);
        assert t in DistinctTags(db);
      }
    }
    r
  }

  // ---------------------------------------------------------------------
  // Store invariants

  /** A create keeps every document under its own id and every component
      pointing at an existing category. */
  lemma {:induction false} CreateComponentPreservesIntegrity(db: Db, body: ComponentBody, user: Id, newId: Id)
    requires newId !in db.components
    requires WellFormed(db) && RefsValid(db)
    ensures var o := CreateComponent(db, body, user, newId); WellFormed(o.db) && RefsValid(o.db)
  {
    var o := CreateComponent(db, body, user, newId);
    if o.reply.Created? {
      var c := o.db.components[newId];
      assert c.id == newId && c.category == body.category.value.id;
      forall k | k in o.db.components
        ensures o.db.components[k].id == k && o.db.components[k].category in o.db.categories
      {
        if k != newId {
          assert k in db.components;
        }
      }
    }
  }

  /** So does an update. */
  lemma {:induction false} UpdateComponentPreservesIntegrity(db: Db, id: RawId, body: ComponentBody, user: Id)
    requires WellFormed(db) && RefsValid(db)
    ensures var o := UpdateComponent(db, id, body, user); WellFormed(o.db) && RefsValid(o.db)
  {
    var o := UpdateComponent(db, id, body, user);
    if o.reply.Ok? {
      var c := ApplyUpdate(db.components[id.id], body).value;
      assert o.db.components == db.components[id.id := c];
      assert c.id == id.id && c.category in db.categories;
    }
  }
}
