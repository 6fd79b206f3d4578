/** The category handlers: every lookup is scoped to the caller, and none of
    them touches a balance. */
module Categories {
  import opened Outcomes
  import opened Ledger
  import opened Store

  const NotFoundOrUnauthorized: string := "Not found or unauthorized"

  /** The category `id`, provided it is the caller's. */
  function FindCategory(db: Database, userId: Id, id: Id): (r: Result<Category>)
    reads db
    ensures r.Ok? <==> id in db.categories && db.categories[id].userId == userId
    ensures r.Ok? ==> r.value == db.categories[id]
    ensures r.Err? ==> r.error == NotFound(NotFoundOrUnauthorized)
  {
    if id in db.categories && db.categories[id].userId == userId
    then Ok(db.categories[id])
    else Err(NotFound(NotFoundOrUnauthorized))
  }

  /** Every category of the caller, keyed by id. */
  function GetAllCategories(db: Database, userId: Id): (r: map<Id, Category>)
    reads db
    ensures forall id :: id in r <==> id in db.categories && db.categories[id].userId == userId
    ensures forall id :: id in r ==> r[id] == db.categories[id]
  {
    map id | id in db.categories && db.categories[id].userId == userId :: db.categories[id]
  }

  /** A lookup by id reaches exactly the categories the listing shows. */
  lemma FindCategoryAgreesWithListing(db: Database, userId: Id, id: Id)
    ensures FindCategory(db, userId, id).Ok? <==> id in GetAllCategories(db, userId)
    ensures FindCategory(db, userId, id).Ok? ==>
              FindCategory(db, userId, id).value == GetAllCategories(db, userId)[id]
  {
  }

  /** A lookup that fails, because the category is another owner's, gives the
      same answer as one for a missing id. */
  lemma FindCategoryHidesOtherOwners(db: Database, userId: Id, id: Id, missing: Id)
    requires missing !in db.categories
    ensures FindCategory(db, userId, id).Err? ==> FindCategory(db, userId, id) == FindCategory(db, userId, missing)
  {
  }

  /** After the ownership check, every transaction that refers to the
      category, whoever's it is. */
  function GetCategoryTransactions(db: Database, userId: Id, id: Id): (r: Result<map<Id, Transaction>>)
    reads db
    ensures r.Ok? <==> FindCategory(db, userId, id).Ok?
    ensures r.Err? ==> r.error == NotFound(NotFoundOrUnauthorized)
    ensures r.Ok? ==> forall k :: k in r.value <==> k in db.transactions && db.transactions[k].categoryId == id
    ensures r.Ok? ==> forall k :: k in r.value ==> r.value[k] == db.transactions[k]
  {
    var found := FindCategory(db, userId, id);
    if found.Err? then Err(found.error)
    else Ok(map k | k in db.transactions && db.transactions[k].categoryId == id :: db.transactions[k])
  }

  /** The listing filters by category only, yet on well-formed tables it
      never shows another owner's transaction. */
  lemma CategoryTransactionsAreTheCallers(db: Database, userId: Id, id: Id)
    requires db.Valid()
    ensures GetCategoryTransactions(db, userId, id).Ok? ==>
              forall k :: k in GetCategoryTransactions(db, userId, id).value ==>
                GetCategoryTransactions(db, userId, id).value[k].userId == userId
  {
  }

  /** Stores a new category of the caller with balance 0. */
  method CreateCategory(db: Database, userId: Id, name: string, description: Option<string>, now: Timestamp)
    returns (id: Id, category: Category)
    requires db.Valid()
    modifies db
    ensures db.Valid()
    ensures old(NonNegative(db.Snapshot())) ==> NonNegative(db.Snapshot())
    ensures category == Category(userId, name, description, 0, now, now)
    ensures id == old(db.nextCategoryId) && id !in old(db.categories)
    ensures db.Snapshot() == CategoryAdded(old(db.Snapshot()), category)
  {
    CategoryAddedPreserves(db.Snapshot(), Category(userId, name, description, 0, now, now));
    category := Category(userId, name, description, 0, now, now);
    id := db.nextCategoryId;
    db.categories := db.categories[id := category];
    db.nextCategoryId := id + 1;
  }

  /** Overwrites the name, the description and the update time of one of the
      caller's categories; its owner and balance stay as they are. */
  method UpdateCategory(db: Database, userId: Id, id: Id, name: string, description: Option<string>,
                        now: Timestamp)
    returns (r: Result<Category>)
    requires db.Valid()
    modifies db
    ensures db.Valid()
    ensures old(NonNegative(db.Snapshot())) ==> NonNegative(db.Snapshot())
    ensures old(FindCategory(db, userId, id)).Err? ==>
              r == Err(NotFound(NotFoundOrUnauthorized)) && unchanged(db)
    ensures old(FindCategory(db, userId, id)).Ok? ==>
              && db.Snapshot() == CategoryEdited(old(db.Snapshot()), id, name, description, now)
              && r == Ok(db.categories[id])
  {
    ghost var s := db.Snapshot();
    var found := FindCategory(db, userId, id);
    if found.Err? {
      return Err(found.error);
    }
    var updated := found.value.(name := name, description := description, updatedAt := now);
    db.categories := db.categories[id := updated];
    CategoryEditedPreserves(s, id, name, description, now);
    return Ok(updated);
  }

  /** Removes one of the caller's categories. No balance changes, and the
      transactions that refer to it stay in the table. */
  method DeleteCategory(db: Database, userId: Id, id: Id) returns (r: Result<()>)
    requires db.Valid()
    modifies db
    ensures db.Valid()
    ensures old(NonNegative(db.Snapshot())) ==> NonNegative(db.Snapshot())
    ensures old(FindCategory(db, userId, id)).Err? ==>
              r == Err(NotFound(NotFoundOrUnauthorized)) && unchanged(db)
    ensures old(FindCategory(db, userId, id)).Ok? ==>
              r == Ok(()) && db.Snapshot() == CategoryRemoved(old(db.Snapshot()), id)
  {
    ghost var s := db.Snapshot();
    var found := FindCategory(db, userId, id);
    if found.Err? {
      return Err(found.error);
    }
    db.categories := db.categories - {id};
    CategoryRemovedPreserves(s, id);
    return Ok(());
  }
}
