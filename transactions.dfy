/** The transaction handlers and the balance mutator they share. Each
    handler takes the caller's user id as a parameter; the handlers run
    their steps one after the other with no enclosing database transaction. */
module Transactions {
  import opened Outcomes
  import opened Ledger
  import opened Store

  const UserNotFound: string := "User not found"
  const CategoryNotFound: string := "Category not found"
  const CategoryNotFoundOrUnauthorized: string := "Category not found or unauthorized"
  const TransactionNotFoundOrUnauthorized: string := "Transaction not found or unauthorized"

  /** The type test of the delete guard: an exact, case-sensitive match. */
  predicate IsCredit(kind: string)
    ensures IsCredit(kind) ==> IsKnownKind(kind)
  {
    kind == Credit
  }

  /** The (user, category) deltas of a transaction being created
      (`isDelete` false) or deleted (`isDelete` true). */
  function BalanceDelta(kind: string, amount: int, isDelete: bool): (r: Result<(int, int)>)
    ensures r.Ok? <==> IsKnownKind(kind)
    ensures r.Err? ==> r.error == InvalidType
    ensures r.Ok? ==> r.value.0 == r.value.1
    ensures r.Ok? ==> r.value.0 == if isDelete then -SignedAmount(kind, amount) else SignedAmount(kind, amount)
  {
    if kind == Debit && !isDelete then Ok((-amount, -amount))
    else if kind == Credit && !isDelete then Ok((amount, amount))
    else if kind == Debit && isDelete then Ok((amount, amount))
    else if kind == Credit && isDelete then Ok((-amount, -amount))
    else Err(InvalidType)
  }

  /** Deleting a transaction undoes exactly what creating it did. */
  lemma DeltaReversal(kind: string, amount: int)
    requires IsKnownKind(kind)
    ensures BalanceDelta(kind, amount, false).value.0 + BalanceDelta(kind, amount, true).value.0 == 0
    ensures BalanceDelta(kind, amount, false).value.1 + BalanceDelta(kind, amount, true).value.1 == 0
  {
  }

  /** The caller's balance and the category, which must be the caller's. */
  function FetchUserAndCategory(db: Database, userId: Id, categoryId: Id): (r: Result<(int, Category)>)
    reads db
    ensures r.Ok? <==> userId in db.users && categoryId in db.categories
                       && db.categories[categoryId].userId == userId
    ensures r.Ok? ==> r.value == (db.users[userId], db.categories[categoryId])
    ensures userId !in db.users ==> r == Err(Unauthorized(UserNotFound))
    ensures userId in db.users && r.Err? ==> r == Err(NotFound(CategoryNotFoundOrUnauthorized))
  {
    if userId !in db.users then Err(Unauthorized(UserNotFound))
    else if categoryId in db.categories && db.categories[categoryId].userId == userId
    then Ok((db.users[userId], db.categories[categoryId]))
    else Err(NotFound(CategoryNotFoundOrUnauthorized))
  }

  /** The row `id`, provided it is the caller's. */
  function FindTransaction(db: Database, userId: Id, id: Id): (r: Result<Transaction>)
    reads db
    ensures r.Ok? <==> id in db.transactions && db.transactions[id].userId == userId
    ensures r.Ok? ==> r.value == db.transactions[id]
    ensures r.Err? ==> r.error == NotFound(TransactionNotFoundOrUnauthorized)
  {
    if id in db.transactions && db.transactions[id].userId == userId
    then Ok(db.transactions[id])
    else Err(NotFound(TransactionNotFoundOrUnauthorized))
  }

  /** Every transaction of the caller, keyed by id. */
  function GetAllTransactions(db: Database, userId: Id): (r: map<Id, Transaction>)
    reads db
    ensures forall id :: id in r <==> id in db.transactions && db.transactions[id].userId == userId
    ensures forall id :: id in r ==> r[id] == db.transactions[id]
  {
    map id | id in db.transactions && db.transactions[id].userId == userId :: db.transactions[id]
  }

  /** A lookup by id reaches exactly the rows the listing shows. */
  lemma FindAgreesWithListing(db: Database, userId: Id, id: Id)
    ensures FindTransaction(db, userId, id).Ok? <==> id in GetAllTransactions(db, userId)
    ensures FindTransaction(db, userId, id).Ok? ==>
              FindTransaction(db, userId, id).value == GetAllTransactions(db, userId)[id]
  {
  }

  /** A missing row id and another owner's row id give the same answer. */
  lemma TransactionLookupHidesOtherOwners(db: Database, userId: Id, missing: Id, foreign: Id)
    requires missing !in db.transactions
    requires foreign in db.transactions && db.transactions[foreign].userId != userId
    ensures FindTransaction(db, userId, missing) == FindTransaction(db, userId, foreign)
  {
  }

  /** A missing category id and another owner's category id give the same
      answer. */
  lemma CategoryLookupHidesOtherOwners(db: Database, userId: Id, missing: Id, foreign: Id)
    requires missing !in db.categories
    requires foreign in db.categories && db.categories[foreign].userId != userId
    ensures FetchUserAndCategory(db, userId, missing) == FetchUserAndCategory(db, userId, foreign)
  {
  }

  /** The guard of a create: a DEBIT larger than either balance is refused,
      that is, one that would take either balance below 0. */
  predicate CreateOverdraws(kind: string, amount: int, userBalance: int, categoryBalance: int)
    ensures CreateOverdraws(kind, amount, userBalance, categoryBalance) <==>
              kind == Debit && (userBalance + SignedAmount(kind, amount) < 0
                                || categoryBalance + SignedAmount(kind, amount) < 0)
  {
    kind == Debit && (userBalance < amount || categoryBalance < amount)
  }

  /** The guard of a delete: a CREDIT larger than either balance is refused,
      that is, one whose removal would take either balance below 0. */
  predicate DeleteOverdraws(kind: string, amount: int, userBalance: int, categoryBalance: int)
    ensures DeleteOverdraws(kind, amount, userBalance, categoryBalance) <==>
              kind == Credit && (userBalance - SignedAmount(kind, amount) < 0
                                 || categoryBalance - SignedAmount(kind, amount) < 0)
  {
    IsCredit(kind) && (amount > userBalance || amount > categoryBalance)
  }

  /** Adds the delta to the user's balance and then to the category's,
      reading and writing back one row at a time. An unknown type fails
      before any row is read; a missing category fails after the user's
      balance has already been written. */
  method UpdateBalances(db: Database, userId: Id, categoryId: Id, kind: string, amount: int, isDelete: bool)
    returns (r: Result<()>)
    modifies db
    ensures db.transactions == old(db.transactions)
    ensures db.nextUserId == old(db.nextUserId) && db.nextCategoryId == old(db.nextCategoryId)
    ensures db.nextTransactionId == old(db.nextTransactionId)
    ensures !IsKnownKind(kind) ==> r == Err(InvalidType) && unchanged(db)
    ensures IsKnownKind(kind) && userId !in old(db.users) ==>
              r == Err(NotFound(UserNotFound)) && unchanged(db)
    ensures IsKnownKind(kind) && userId in old(db.users) ==>
              db.users == old(db.users)[userId := old(db.users)[userId] + BalanceDelta(kind, amount, isDelete).value.0]
    ensures IsKnownKind(kind) && userId in old(db.users) && categoryId !in old(db.categories) ==>
              r == Err(NotFound(CategoryNotFound)) && db.categories == old(db.categories)
    ensures IsKnownKind(kind) && userId in old(db.users) && categoryId in old(db.categories) ==>
              var c := old(db.categories)[categoryId];
              r == Ok(()) &&
              db.categories == old(db.categories)[categoryId := c.(balance := c.balance + BalanceDelta(kind, amount, isDelete).value.1)]
  {
    var delta := BalanceDelta(kind, amount, isDelete);
    if delta.Err? {
      return Err(delta.error);
    }
    var (userDelta, categoryDelta) := delta.value;
    if userId !in db.users {
      return Err(NotFound(UserNotFound));
    }
    db.users := db.users[userId := db.users[userId] + userDelta];
    if categoryId !in db.categories {
      return Err(NotFound(CategoryNotFound));
    }
    var category := db.categories[categoryId];
    db.categories := db.categories[categoryId := category.(balance := category.balance + categoryDelta)];
    return Ok(());
  }

  /** Looks up the caller and the category, refuses an overdrawing DEBIT,
      stores the row and then adjusts both balances. A row with an unknown
      type stays stored while the balances are left alone. */
  method CreateTransaction(db: Database, userId: Id, categoryId: Id, kind: string, amount: int,
                           memo: string, description: Option<string>, now: Timestamp)
    returns (r: Result<(Id, Transaction)>)
    requires db.Valid()
    modifies db
    ensures db.Valid()
    ensures old(NonNegative(db.Snapshot())) && amount >= 0 ==> NonNegative(db.Snapshot())
    ensures var f := old(FetchUserAndCategory(db, userId, categoryId));
            f.Err? ==> r == Err(f.error) && unchanged(db)
    ensures var f := old(FetchUserAndCategory(db, userId, categoryId));
            f.Ok? && CreateOverdraws(kind, amount, f.value.0, f.value.1.balance) ==>
              r == Err(InsufficientBalance) && unchanged(db)
    ensures var f := old(FetchUserAndCategory(db, userId, categoryId));
            var row := Transaction(userId, categoryId, kind, amount, memo, description, now, now);
            f.Ok? && !CreateOverdraws(kind, amount, f.value.0, f.value.1.balance) ==>
              && db.Snapshot() == Posted(old(db.Snapshot()), row)
              && r == if IsKnownKind(kind) then Ok((old(db.nextTransactionId), row)) else Err(InvalidType)
  {
    ghost var s := db.Snapshot();
    var fetched := FetchUserAndCategory(db, userId, categoryId);
    if fetched.Err? {
      return Err(fetched.error);
    }
    var (userBalance, category) := fetched.value;
    if CreateOverdraws(kind, amount, userBalance, category.balance) {
      return Err(InsufficientBalance);
    }
    var row := Transaction(userId, categoryId, kind, amount, memo, description, now, now);
    var id := db.nextTransactionId;
    db.transactions := db.transactions[id := row];
    db.nextTransactionId := id + 1;
    var updated := UpdateBalances(db, userId, categoryId, kind, amount, false);
    if !IsKnownKind(kind) {
      assert s.users[userId := s.users[userId] + 0] == s.users;
      assert s.categories[categoryId := category.(balance := category.balance + 0)] == s.categories;
    }
    assert db.Snapshot() == Posted(s, row);
    PostedPreserves(s, row);
    if NonNegative(s) && amount >= 0 {
      PostedNonNegative(s, row);
    }
    if updated.Err? {
      return Err(updated.error);
    }
    return Ok((id, row));
  }

  /** Overwrites the memo, the description and the update time of one of the
      caller's rows; nothing else changes. */
  method UpdateTransaction(db: Database, userId: Id, id: Id, memo: string, description: Option<string>,
                           now: Timestamp)
    returns (r: Result<Transaction>)
    requires db.Valid()
    modifies db
    ensures db.Valid()
    ensures old(NonNegative(db.Snapshot())) ==> NonNegative(db.Snapshot())
    ensures old(FindTransaction(db, userId, id)).Err? ==>
              r == Err(NotFound(TransactionNotFoundOrUnauthorized)) && unchanged(db)
    ensures old(FindTransaction(db, userId, id)).Ok? ==>
              && db.Snapshot() == Edited(old(db.Snapshot()), id, memo, description, now)
              && r == Ok(db.transactions[id])
  {
    ghost var s := db.Snapshot();
    var found := FindTransaction(db, userId, id);
    if found.Err? {
      return Err(found.error);
    }
    var updated := found.value.(memo := memo, description := description, updatedAt := now);
    db.transactions := db.transactions[id := updated];
    EditedPreserves(s, id, memo, description, now);
    return Ok(updated);
  }

  /** Looks up the caller's row and its category, refuses a CREDIT larger
      than either balance, removes the row and then takes its effect back
      from both balances. */
  method DeleteTransaction(db: Database, userId: Id, id: Id) returns (r: Result<()>)
    requires db.Valid()
    modifies db
    ensures db.Valid()
    ensures old(NonNegative(db.Snapshot())) ==> NonNegative(db.Snapshot())
    ensures old(FindTransaction(db, userId, id)).Err? ==>
              r == Err(NotFound(TransactionNotFoundOrUnauthorized)) && unchanged(db)
    ensures old(FindTransaction(db, userId, id)).Ok? ==>
              var t := old(db.transactions)[id];
              var f := old(FetchUserAndCategory(db, userId, t.categoryId));
              && (f.Err? ==> r == Err(f.error) && unchanged(db))
              && (f.Ok? && DeleteOverdraws(t.kind, t.amount, f.value.0, f.value.1.balance) ==>
                    r == Err(InsufficientBalance) && unchanged(db))
              && (f.Ok? && !DeleteOverdraws(t.kind, t.amount, f.value.0, f.value.1.balance) ==>
                    && db.Snapshot() == Unposted(old(db.Snapshot()), id)
                    && r == if IsKnownKind(t.kind) then Ok(()) else Err(InvalidType))
  {
    ghost var s := db.Snapshot();
    var found := FindTransaction(db, userId, id);
    if found.Err? {
      return Err(found.error);
    }
    var t := found.value;
    var fetched := FetchUserAndCategory(db, userId, t.categoryId);
    if fetched.Err? {
      return Err(fetched.error);
    }
    var (userBalance, category) := fetched.value;
    if DeleteOverdraws(t.kind, t.amount, userBalance, category.balance) {
      return Err(InsufficientBalance);
    }
    db.transactions := db.transactions - {id};
    var updated := UpdateBalances(db, userId, t.categoryId, t.kind, t.amount, true);
    if !IsKnownKind(t.kind) {
      assert s.users[userId := s.users[userId] - 0] == s.users;
      assert s.categories[t.categoryId := category.(balance := category.balance - 0)] == s.categories;
    }
    assert db.Snapshot() == Unposted(s, id);
    UnpostedPreserves(s, id);
    if NonNegative(s) {
      UnpostedNonNegative(s, id);
    }
    if updated.Err? {
      return Err(updated.error);
    }
    return Ok(());
  }

  /** An accepted create of a non-negative amount keeps every balance and
      every stored amount non-negative. */
  lemma PostedNonNegative(s: Tables, t: Transaction)
    requires NonNegative(s)
    requires t.userId in s.users && t.categoryId in s.categories
    requires t.amount >= 0
    requires !CreateOverdraws(t.kind, t.amount, s.users[t.userId], s.categories[t.categoryId].balance)
    ensures NonNegative(Posted(s, t))
  {
  }

  /** The create guard refuses a DEBIT exactly when storing it would leave
      the caller's balance or the category's balance negative, whatever the
      balances were before. */
  lemma DebitGuardKeepsBalances(s: Tables, t: Transaction)
    requires t.userId in s.users && t.categoryId in s.categories
    requires t.kind == Debit
    ensures !CreateOverdraws(t.kind, t.amount, s.users[t.userId], s.categories[t.categoryId].balance) <==>
              Posted(s, t).users[t.userId] >= 0 && Posted(s, t).categories[t.categoryId].balance >= 0
  {
  }

  /** The delete guard refuses a CREDIT exactly when removing it would leave
      its user's balance or its category's balance negative, whatever the
      balances were before. */
  lemma CreditGuardKeepsBalances(s: Tables, id: Id)
    requires id in s.transactions
    requires s.transactions[id].userId in s.users && s.transactions[id].categoryId in s.categories
    requires IsCredit(s.transactions[id].kind)
    ensures !DeleteOverdraws(s.transactions[id].kind, s.transactions[id].amount,
                             s.users[s.transactions[id].userId],
                             s.categories[s.transactions[id].categoryId].balance) <==>
              && Unposted(s, id).users[s.transactions[id].userId] >= 0
              && Unposted(s, id).categories[s.transactions[id].categoryId].balance >= 0
  {
  }

  /** An accepted delete keeps every balance and every stored amount
      non-negative. */
  lemma UnpostedNonNegative(s: Tables, id: Id)
    requires NonNegative(s)
    requires id in s.transactions
    requires s.transactions[id].userId in s.users && s.transactions[id].categoryId in s.categories
    requires !DeleteOverdraws(s.transactions[id].kind, s.transactions[id].amount,
                              s.users[s.transactions[id].userId],
                              s.categories[s.transactions[id].categoryId].balance)
    ensures NonNegative(Unposted(s, id))
  {
  }

  /** The create guard looks only at DEBIT, and no handler checks the sign
      of the amount: a CREDIT of -1 on zero balances is accepted and leaves
      both balances at -1. */
  lemma NegativeCreditOverdraws()
    ensures var s := Tables(map[1 := 0], map[1 := Category(1, "c", None, 0, 0, 0)], map[], 2, 2, 1);
            var t := Transaction(1, 1, Credit, -1, "m", None, 0, 0);
            && WellFormed(s) && Consistent(s) && NonNegative(s)
            && !CreateOverdraws(t.kind, t.amount, s.users[1], s.categories[1].balance)
            && Posted(s, t).users[1] == -1 && Posted(s, t).categories[1].balance == -1
  {
  }
}
