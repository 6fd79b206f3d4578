/** The rows of the three tables, the signed sums that the denormalised
    balances stand for, the invariants that tie them together, and the
    effect on the tables of an accepted create and an accepted delete of a
    transaction. */
module Ledger {
  import opened Outcomes

  /** Primary keys are auto-increment integers starting at 1. */
  type Id = int
  /** `created_at` / `updated_at` are opaque instants supplied by the caller. */
  type Timestamp = int

  const Debit: string := "DEBIT"
  const Credit: string := "CREDIT"

  datatype Category = Category(
    userId: Id,
    name: string,
    description: Option<string>,
    balance: int,
    createdAt: Timestamp,
    updatedAt: Timestamp)

  /** `kind` is the raw type string of the row: nothing stops a row from
      holding a type other than "DEBIT" or "CREDIT". */
  datatype Transaction = Transaction(
    userId: Id,
    categoryId: Id,
    kind: string,
    amount: int,
    memo: string,
    description: Option<string>,
    createdAt: Timestamp,
    updatedAt: Timestamp)

  /** The user table keeps only what the core reads: id -> balance. */
  datatype Tables = Tables(
    users: map<Id, int>,
    categories: map<Id, Category>,
    transactions: map<Id, Transaction>,
    nextUserId: nat,
    nextCategoryId: nat,
    nextTransactionId: nat)

  predicate IsKnownKind(kind: string) {
    kind == Debit || kind == Credit
  }

  /** What a transaction adds to its user's and its category's balance:
      CREDIT adds the amount, DEBIT subtracts it, any other type nothing. */
  function SignedAmount(kind: string, amount: int): (r: int) {
    if kind == Credit then amount else if kind == Debit then -amount else 0
  }

  /** An aggregate balance: a user's or a category's. */
  datatype Account = UserAccount(userId: Id) | CategoryAccount(categoryId: Id)

  predicate Belongs(t: Transaction, a: Account) {
    match a
    case UserAccount(u) => t.userId == u
    case CategoryAccount(c) => t.categoryId == c
  }

  function Contribution(t: Transaction, a: Account): (r: int) {
    if Belongs(t, a) then SignedAmount(t.kind, t.amount) else 0
  }

  /** What the row stored under `k`, if any, contributes to `a`. */
  function Slot(m: map<Id, Transaction>, k: Id, a: Account): (r: int) {
    if k in m then Contribution(m[k], a) else 0
  }

  /** The signed sum over the rows with ids in [0, n) that belong to `a`. */
  ghost function Total(m: map<Id, Transaction>, a: Account, n: nat): (r: int)
    decreases n
  {
    if n == 0 then 0 else Total(m, a, n - 1) + Slot(m, n - 1, a)
  }

  /** Two tables that agree on every slot below `n` have the same sum. */
  lemma {:induction false} TotalCongruent(m: map<Id, Transaction>, m': map<Id, Transaction>, a: Account, n: nat)
    requires forall k :: 0 <= k < n ==> Slot(m, k, a) == Slot(m', k, a)
    ensures Total(m, a, n) == Total(m', a, n)
  {
    if n > 0 {
      TotalCongruent(m, m', a, n - 1);
    }
  }

  /** Storing a row under a fresh id above every existing id adds exactly
      that row's contribution. */
  lemma {:induction false} TotalInsert(m: map<Id, Transaction>, k: nat, t: Transaction, a: Account)
    requires forall j :: j in m ==> j < k
    ensures Total(m[k := t], a, k + 1) == Total(m, a, k) + Contribution(t, a)
  {
    TotalCongruent(m[k := t], m, a, k);
  }

  /** Removing a stored row takes away exactly that row's contribution. */
  lemma {:induction false} TotalRemove(m: map<Id, Transaction>, k: Id, a: Account, n: nat)
    requires k in m && 0 <= k < n
    ensures Total(m - {k}, a, n) == Total(m, a, n) - Contribution(m[k], a)
  {
    if n - 1 == k {
      TotalCongruent(m - {k}, m, a, k);
    } else {
      TotalRemove(m, k, a, n - 1);
    }
  }

  /** An account no row belongs to sums to zero. */
  lemma {:induction false} TotalNone(m: map<Id, Transaction>, a: Account, n: nat)
    requires forall j :: j in m ==> !Belongs(m[j], a)
    ensures Total(m, a, n) == 0
  {
    if n > 0 {
      TotalNone(m, a, n - 1);
    }
  }

  /** Ids come from the counters, and every transaction refers to a user and
      a category id that was handed out; a transaction whose category still
      exists has the same owner as that category. */
  ghost predicate WellFormed(s: Tables) {
    && 1 <= s.nextUserId && 1 <= s.nextCategoryId && 1 <= s.nextTransactionId
    && (forall u :: u in s.users ==> 0 < u < s.nextUserId)
    && (forall c :: c in s.categories ==> 0 < c < s.nextCategoryId)
    && (forall k :: k in s.transactions ==> 0 < k < s.nextTransactionId)
    && (forall k :: k in s.transactions ==>
          s.transactions[k].userId < s.nextUserId && s.transactions[k].categoryId < s.nextCategoryId)
    && (forall k :: k in s.transactions && s.transactions[k].categoryId in s.categories ==>
          s.categories[s.transactions[k].categoryId].userId == s.transactions[k].userId)
  }

  /** Every user's balance, and every category's balance, is the signed sum
      of the transactions that belong to it. */
  ghost predicate Consistent(s: Tables) {
    && (forall u :: u in s.users ==>
          s.users[u] == Total(s.transactions, UserAccount(u), s.nextTransactionId))
    && (forall c :: c in s.categories ==>
          s.categories[c].balance == Total(s.transactions, CategoryAccount(c), s.nextTransactionId))
  }

  /** No balance is negative and no stored amount is negative. */
  ghost predicate NonNegative(s: Tables) {
    && (forall u :: u in s.users ==> s.users[u] >= 0)
    && (forall c :: c in s.categories ==> s.categories[c].balance >= 0)
    && (forall k :: k in s.transactions ==> s.transactions[k].amount >= 0)
  }

  /** The tables after an accepted create of `t`: the row is stored under the
      next id and its signed amount is added to its user and its category. */
  function Posted(s: Tables, t: Transaction): (r: Tables)
    requires t.userId in s.users && t.categoryId in s.categories
  {
    var d := SignedAmount(t.kind, t.amount);
    var c := s.categories[t.categoryId];
    s.(users := s.users[t.userId := s.users[t.userId] + d],
       categories := s.categories[t.categoryId := c.(balance := c.balance + d)],
       transactions := s.transactions[s.nextTransactionId := t],
       nextTransactionId := s.nextTransactionId + 1)
  }

  /** The tables after an accepted delete of row `id`: the row is removed and
      its signed amount is taken back from its user and its category. */
  function Unposted(s: Tables, id: Id): (r: Tables)
    requires id in s.transactions
    requires s.transactions[id].userId in s.users && s.transactions[id].categoryId in s.categories
  {
    var t := s.transactions[id];
    var d := SignedAmount(t.kind, t.amount);
    var c := s.categories[t.categoryId];
    s.(users := s.users[t.userId := s.users[t.userId] - d],
       categories := s.categories[t.categoryId := c.(balance := c.balance - d)],
       transactions := s.transactions - {id})
  }

  lemma PostedPreserves(s: Tables, t: Transaction)
    requires WellFormed(s) && Consistent(s)
    requires t.userId in s.users && t.categoryId in s.categories
    requires s.categories[t.categoryId].userId == t.userId
    ensures WellFormed(Posted(s, t)) && Consistent(Posted(s, t))
  {
    var s' := Posted(s, t);
    forall a: Account
      ensures Total(s'.transactions, a, s'.nextTransactionId)
           == Total(s.transactions, a, s.nextTransactionId) + Contribution(t, a)
    {
      TotalInsert(s.transactions, s.nextTransactionId, t, a);
    }
    forall u | u in s'.users
      ensures s'.users[u] == Total(s'.transactions, UserAccount(u), s'.nextTransactionId)
    {
      assert Contribution(t, UserAccount(u)) == if u == t.userId then SignedAmount(t.kind, t.amount) else 0;
    }
    forall c | c in s'.categories
      ensures s'.categories[c].balance == Total(s'.transactions, CategoryAccount(c), s'.nextTransactionId)
    {
      assert Contribution(t, CategoryAccount(c)) == if c == t.categoryId then SignedAmount(t.kind, t.amount) else 0;
    }
  }

  lemma UnpostedPreserves(s: Tables, id: Id)
    requires WellFormed(s) && Consistent(s)
    requires id in s.transactions
    requires s.transactions[id].userId in s.users && s.transactions[id].categoryId in s.categories
    ensures WellFormed(Unposted(s, id)) && Consistent(Unposted(s, id))
  {
    var s' := Unposted(s, id);
    var t := s.transactions[id];
    forall a: Account
      ensures Total(s'.transactions, a, s'.nextTransactionId)
           == Total(s.transactions, a, s.nextTransactionId) - Contribution(t, a)
    {
      TotalRemove(s.transactions, id, a, s.nextTransactionId);
    }
    forall u | u in s'.users
      ensures s'.users[u] == Total(s'.transactions, UserAccount(u), s'.nextTransactionId)
    {
      assert Contribution(t, UserAccount(u)) == if u == t.userId then SignedAmount(t.kind, t.amount) else 0;
    }
    forall c | c in s'.categories
      ensures s'.categories[c].balance == Total(s'.transactions, CategoryAccount(c), s'.nextTransactionId)
    {
      assert Contribution(t, CategoryAccount(c)) == if c == t.categoryId then SignedAmount(t.kind, t.amount) else 0;
    }
  }

  /** Creating a row and then deleting it leaves all three tables as they
      were; only the id counter has moved on. */
  lemma PostThenUnpost(s: Tables, t: Transaction)
    requires WellFormed(s)
    requires t.userId in s.users && t.categoryId in s.categories
    ensures s.nextTransactionId in Posted(s, t).transactions
    ensures Unposted(Posted(s, t), s.nextTransactionId)
         == s.(nextTransactionId := s.nextTransactionId + 1)
  {
  }

  /** Adding a user with balance 0 under the next user id. */
  function UserAdded(s: Tables): (r: Tables) {
    s.(users := s.users[s.nextUserId := 0], nextUserId := s.nextUserId + 1)
  }

  lemma UserAddedPreserves(s: Tables)
    requires WellFormed(s) && Consistent(s)
    ensures WellFormed(UserAdded(s)) && Consistent(UserAdded(s))
  {
    TotalNone(s.transactions, UserAccount(s.nextUserId), s.nextTransactionId);
  }

  /** Adding a category under the next category id. */
  function CategoryAdded(s: Tables, c: Category): (r: Tables) {
    s.(categories := s.categories[s.nextCategoryId := c], nextCategoryId := s.nextCategoryId + 1)
  }

  lemma CategoryAddedPreserves(s: Tables, c: Category)
    requires WellFormed(s) && Consistent(s)
    requires c.balance == 0
    ensures WellFormed(CategoryAdded(s, c)) && Consistent(CategoryAdded(s, c))
  {
    TotalNone(s.transactions, CategoryAccount(s.nextCategoryId), s.nextTransactionId);
  }

  /** Overwriting the memo, description and update time of row `id`. */
  function Edited(s: Tables, id: Id, memo: string, description: Option<string>, now: Timestamp): (r: Tables)
    requires id in s.transactions
  {
    var t := s.transactions[id];
    s.(transactions := s.transactions[id := t.(memo := memo, description := description, updatedAt := now)])
  }

  lemma EditedPreserves(s: Tables, id: Id, memo: string, description: Option<string>, now: Timestamp)
    requires WellFormed(s) && Consistent(s)
    requires id in s.transactions
    ensures WellFormed(Edited(s, id, memo, description, now)) && Consistent(Edited(s, id, memo, description, now))
    ensures forall a: Account :: Total(Edited(s, id, memo, description, now).transactions, a, s.nextTransactionId)
                                 == Total(s.transactions, a, s.nextTransactionId)
  {
    var s' := Edited(s, id, memo, description, now);
    forall a: Account
      ensures Total(s'.transactions, a, s'.nextTransactionId) == Total(s.transactions, a, s.nextTransactionId)
    {
      TotalCongruent(s'.transactions, s.transactions, a, s.nextTransactionId);
    }
  }

  /** Overwriting the name, description and update time of category `id`. */
  function CategoryEdited(s: Tables, id: Id, name: string, description: Option<string>, now: Timestamp): (r: Tables)
    requires id in s.categories
  {
    var c := s.categories[id];
    s.(categories := s.categories[id := c.(name := name, description := description, updatedAt := now)])
  }

  lemma CategoryEditedPreserves(s: Tables, id: Id, name: string, description: Option<string>, now: Timestamp)
    requires WellFormed(s) && Consistent(s)
    requires id in s.categories
    ensures WellFormed(CategoryEdited(s, id, name, description, now))
    ensures Consistent(CategoryEdited(s, id, name, description, now))
  {
  }

  /** Removing category `id`; no balance and no transaction row changes. */
  function CategoryRemoved(s: Tables, id: Id): (r: Tables) {
    s.(categories := s.categories - {id})
  }

  /** The invariants survive because the category's transactions stay in the
      table and still count towards their owner's sum; removing them along
      with the category, as a cascading delete would, breaks the owner's
      whenever their signed amounts do not cancel. */
  lemma CategoryRemovedPreserves(s: Tables, id: Id)
    requires WellFormed(s) && Consistent(s)
    ensures WellFormed(CategoryRemoved(s, id)) && Consistent(CategoryRemoved(s, id))
  {
  }
}
