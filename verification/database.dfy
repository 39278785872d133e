/** The two collections the CRUD controllers work on, as maps from ObjectId
    to document, and the invariants the controllers keep. */
module Database {

  import opened Js
  import opened Text
  import opened CategorySchema
  import opened ComponentSchema

  datatype Db = Db(categories: map<Id, Category>, components: map<Id, Component>)

  /** Every document is stored under its own id. */
  predicate WellFormed(db: Db) {
    && (forall k :: k in db.categories ==> db.categories[k].id == k)
    && (forall k :: k in db.components ==> db.components[k].id == k)
  }

  /** The category collection as the schema promises it: every category
      saves, and no two categories share a name. */
  predicate CategoriesValid(db: Db) {
    && (forall k :: k in db.categories ==> ValidCategory(db.categories[k]))
    && (forall k, k' :: k in db.categories && k' in db.categories && k != k'
          ==> db.categories[k].name != db.categories[k'].name)
  }

  /** Every component references a category that exists. */
  predicate RefsValid(db: Db) {
    forall k :: k in db.components ==> db.components[k].category in db.categories
  }

  /** Some category is called `name`. */
  predicate NameTaken(cats: map<Id, Category>, name: string) {
    exists k :: k in cats && cats[k].name == name
  }

  /** Ids of the components that reference category `cat`. */
  function ComponentsOf(db: Db, cat: Id): set<Id> {
    set k | k in db.components && db.components[k].category == cat
  }

  /** `Component.countDocuments({ category })`. */
  function ComponentCount(db: Db, cat: Id): nat {
    |ComponentsOf(db, cat)|
  }

  lemma ComponentCountZeroIff(db: Db, cat: Id)
    ensures ComponentCount(db, cat) == 0 <==> forall k :: k in db.components ==> db.components[k].category != cat
  {
    if ComponentCount(db, cat) != 0 {
      var k :| k in ComponentsOf(db, cat);
    } else {
      forall k | k in db.components
        ensures db.components[k].category != cat
      {
        assert db.components[k].category == cat ==> k in ComponentsOf(db, cat);
      }
    }
  }
}
