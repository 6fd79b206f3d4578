/** The database the handlers share: the user, category and transaction
    tables as maps from primary key to row, each with its auto-increment
    counter. */
module Store {
  import opened Ledger

  class Database {
    var users: map<Id, int>
    var categories: map<Id, Category>
    var transactions: map<Id, Transaction>
    var nextUserId: nat
    var nextCategoryId: nat
    var nextTransactionId: nat

    /** The tables as one value. */
    ghost function Snapshot(): Tables
      reads this
    {
      Tables(users, categories, transactions, nextUserId, nextCategoryId, nextTransactionId)
    }

    /** The object invariant: ids come from the counters and every balance is
        the signed sum of its transactions. */
    ghost predicate Valid()
      reads this
    {
      WellFormed(Snapshot()) && Consistent(Snapshot())
    }

    /** Empty tables; every auto-increment counter starts at 1. */
    constructor ()
      ensures Valid() && NonNegative(Snapshot())
      ensures users == map[] && categories == map[] && transactions == map[]
      ensures nextUserId == 1 && nextCategoryId == 1 && nextTransactionId == 1
    {
      users, categories, transactions := map[], map[], map[];
      nextUserId, nextCategoryId, nextTransactionId := 1, 1, 1;
    }

    /** The row sign-up inserts: a new user whose balance starts at 0. */
    method AddUser() returns (id: Id)
      requires Valid()
      modifies this
      ensures Valid()
      ensures id == old(nextUserId) && id !in old(users)
      ensures Snapshot() == UserAdded(old(Snapshot()))
      ensures users[id] == 0
      ensures old(NonNegative(Snapshot())) ==> NonNegative(Snapshot())
    {
      UserAddedPreserves(Snapshot());
      id := nextUserId;
      users := users[id := 0];
      nextUserId := nextUserId + 1;
    }
  }
}
