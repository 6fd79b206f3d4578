/** Clients of the handlers: what a caller can conclude from their contracts
    alone about a create followed by a delete, and about a few concrete
    request sequences. */
module Scenarios {
  import opened Outcomes
  import opened Ledger
  import opened Store
  import opened Transactions
  import opened Categories

  /** Creating a transaction and deleting it again restores all three tables,
      balances included, when neither the caller's balance nor the category's
      balance was negative to begin with. This
      holds for a row with an unknown type too: it is stored and removed
      without ever touching a balance. */
  method CreateThenDelete(db: Database, userId: Id, categoryId: Id, kind: string, amount: int,
                          memo: string, description: Option<string>, now: Timestamp)
    returns (created: Result<(Id, Transaction)>, deleted: Result<()>)
    requires db.Valid()
    requires userId in db.users ==> db.users[userId] >= 0
    requires categoryId in db.categories ==> db.categories[categoryId].balance >= 0
    modifies db
    ensures db.Valid()
    ensures created.Ok? || created == Err(InvalidType) ==>
              && db.users == old(db.users)
              && db.categories == old(db.categories)
              && db.transactions == old(db.transactions)
              && deleted == if IsKnownKind(kind) then Ok(()) else Err(InvalidType)
  {
    ghost var s := db.Snapshot();
    var id := db.nextTransactionId;
    created := CreateTransaction(db, userId, categoryId, kind, amount, memo, description, now);
    if created.Ok? || created == Err(InvalidType) {
      ghost var row := Transaction(userId, categoryId, kind, amount, memo, description, now, now);
      PostThenUnpost(s, row);
      deleted := DeleteTransaction(db, userId, id);
    } else {
      deleted := Err(created.error);
    }
  }

  /** A credit of 500 on zero balances gives 500 to both; a debit of 600 is
      then refused and changes nothing. */
  method CreditThenOverdraw() {
    var db := new Database();
    var user := db.AddUser();
    var food, _ := CreateCategory(db, user, "food", None, 0);
    var credit := CreateTransaction(db, user, food, Credit, 500, "salary", None, 1);
    assert credit.Ok?;
    assert db.users[user] == 500 && db.categories[food].balance == 500;
    var overdraw := CreateTransaction(db, user, food, Debit, 600, "rent", None, 2);
    assert overdraw == Err(InsufficientBalance);
    assert db.users[user] == 500 && db.categories[food].balance == 500;
  }

  /** From 500 on both, a debit of 500 empties both balances, and deleting
      it brings both back to 500. */
  method DebitAllThenDelete() {
    var db := new Database();
    var user := db.AddUser();
    var food, _ := CreateCategory(db, user, "food", None, 0);
    var credit := CreateTransaction(db, user, food, Credit, 500, "salary", None, 1);
    assert credit.Ok?;
    assert db.users[user] == 500 && db.categories[food].balance == 500;
    var debit := CreateTransaction(db, user, food, Debit, 500, "rent", None, 2);
    assert debit.Ok?;
    assert db.users[user] == 0 && db.categories[food].balance == 0;
    var undone := DeleteTransaction(db, user, debit.value.0);
    assert undone == Ok(());
    assert db.users[user] == 500 && db.categories[food].balance == 500;
  }

  /** Two categories of 300 each under one user (600 in all): a debit of 300
      from the first leaves the user at 300, the first at 0, the second at 300. */
  method DebitOneOfTwo() {
    var db := new Database();
    var user := db.AddUser();
    var food, _ := CreateCategory(db, user, "food", None, 0);
    var rent, _ := CreateCategory(db, user, "rent", None, 0);
    var a := CreateTransaction(db, user, food, Credit, 300, "salary", None, 1);
    assert a.Ok?;
    assert db.users[user] == 300 && db.categories[food].balance == 300 && db.categories[rent].balance == 0;
    var b := CreateTransaction(db, user, rent, Credit, 300, "salary", None, 2);
    assert b.Ok?;
    assert db.users[user] == 600 && db.categories[food].balance == 300 && db.categories[rent].balance == 300;
    var drawn := CreateTransaction(db, user, food, Debit, 300, "groceries", None, 3);
    assert drawn.Ok?;
    assert db.users[user] == 300 && db.categories[food].balance == 0 && db.categories[rent].balance == 300;
  }
}
