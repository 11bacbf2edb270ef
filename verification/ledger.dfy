/**
 * The ledger store: the four tables of the schema (users, accounts, transactions,
 * transaction_lines) with their unique and foreign-key constraints, the committed
 * database, and the unit of work (an SQL transaction) through which it changes.
 *
 * Every table is a sequence in insertion order; the SERIAL id of the row at index i is i + 1.
 */
module Ledger {
  import opened Wrappers

  /** The reserved account that every deposit debits; it is seeded at start-up. */
  const GenesisAccountNumber: string := "000000000"

  /** The two purposes a transaction line is written with. */
  const DEBIT: string := "debit"
  const CREDIT: string := "credit"

  datatype User = User(id: nat, email: string)

  datatype Account = Account(id: nat, userId: int, accountNumber: string)

  datatype Transaction = Transaction(id: nat, reference: string)

  /** One side of a transaction; `purpose` is free text in the store, "debit" or "credit" in practice. */
  datatype TransactionLine = TransactionLine(id: nat, transactionId: nat, accountId: nat, amount: int, purpose: string)

  datatype Tables = Tables(
    users: seq<User>,
    accounts: seq<Account>,
    transactions: seq<Transaction>,
    lines: seq<TransactionLine>)

  /** Why the store refused an operation. */
  datatype StoreError =
    | DuplicateEmail          // users.email is UNIQUE
    | DuplicateAccountNumber  // accounts.account_number is UNIQUE
    | UnknownUser             // accounts.user_id references users(id)
    | DuplicateReference      // transactions.reference is UNIQUE
    | DuplicateLine           // transaction_lines is UNIQUE on (transaction_id, account_id)
    | UnknownTransaction      // transaction_lines.transaction_id references transactions(id)
    | UnknownAccount          // transaction_lines.account_id references accounts(id)
    | NoAccountNumbers        // an account lookup was given no account numbers

  // ---------------------------------------------------------------------------
  // Lookups the constraints are checked against

  predicate EmailTaken(users: seq<User>, email: string) {
    exists i | 0 <= i < |users| :: users[i].email == email
  }

  predicate UserExists(users: seq<User>, id: int) {
    exists i | 0 <= i < |users| :: users[i].id == id
  }

  predicate NumberTaken(accounts: seq<Account>, number: string) {
    exists i | 0 <= i < |accounts| :: accounts[i].accountNumber == number
  }

  predicate AccountExists(accounts: seq<Account>, id: nat) {
    exists i | 0 <= i < |accounts| :: accounts[i].id == id
  }

  predicate ReferenceTaken(transactions: seq<Transaction>, reference: string) {
    exists i | 0 <= i < |transactions| :: transactions[i].reference == reference
  }

  predicate TransactionExists(transactions: seq<Transaction>, id: nat) {
    exists i | 0 <= i < |transactions| :: transactions[i].id == id
  }

  predicate PairTaken(lines: seq<TransactionLine>, transactionId: nat, accountId: nat) {
    exists i | 0 <= i < |lines| :: lines[i].transactionId == transactionId && lines[i].accountId == accountId
  }

  /** The constraint an account insert violates, checking uniqueness before the foreign key. */
  function AccountInsertError(t: Tables, userId: int, number: string): Option<StoreError> {
    if NumberTaken(t.accounts, number) then Some(DuplicateAccountNumber)
    else if !UserExists(t.users, userId) then Some(UnknownUser)
    else None
  }

  /** The constraint a line insert violates, checking uniqueness before the foreign keys. */
  function LineInsertError(t: Tables, transactionId: nat, accountId: nat): Option<StoreError> {
    if PairTaken(t.lines, transactionId, accountId) then Some(DuplicateLine)
    else if !TransactionExists(t.transactions, transactionId) then Some(UnknownTransaction)
    else if !AccountExists(t.accounts, accountId) then Some(UnknownAccount)
    else None
  }

  // ---------------------------------------------------------------------------
  // Inserts: each appends one row carrying the next serial id and leaves the other tables alone

  function AddUser(t: Tables, email: string): Tables {
    t.(users := t.users + [User(|t.users| + 1, email)])
  }

  function AddAccount(t: Tables, userId: int, number: string): Tables {
    t.(accounts := t.accounts + [Account(|t.accounts| + 1, userId, number)])
  }

  function AddTransaction(t: Tables, reference: string): Tables {
    t.(transactions := t.transactions + [Transaction(|t.transactions| + 1, reference)])
  }

  function AddLine(t: Tables, transactionId: nat, accountId: nat, amount: int, purpose: string): Tables {
    t.(lines := t.lines + [TransactionLine(|t.lines| + 1, transactionId, accountId, amount, purpose)])
  }

  // ---------------------------------------------------------------------------
  // The invariant of a committed store

  predicate UsersValid(users: seq<User>) {
    && (forall i | 0 <= i < |users| :: users[i].id == i + 1)
    && (forall i, j | 0 <= i < j < |users| :: users[i].email != users[j].email)
  }

  predicate AccountsValid(accounts: seq<Account>, userCount: nat) {
    && (forall i | 0 <= i < |accounts| :: accounts[i].id == i + 1 && 1 <= accounts[i].userId <= userCount)
    && (forall i, j | 0 <= i < j < |accounts| :: accounts[i].accountNumber != accounts[j].accountNumber)
  }

  predicate TransactionsValid(transactions: seq<Transaction>) {
    && (forall i | 0 <= i < |transactions| :: transactions[i].id == i + 1)
    && (forall i, j | 0 <= i < j < |transactions| :: transactions[i].reference != transactions[j].reference)
  }

  /** Lines 2k and 2k+1 are the debit and the credit of transaction k + 1: equal amounts, two accounts. */
  predicate EntryPair(lines: seq<TransactionLine>, k: nat)
    requires 2 * k + 1 < |lines|
  {
    var debit, credit := lines[2 * k], lines[2 * k + 1];
    && debit.transactionId == k + 1 && credit.transactionId == k + 1
    && debit.purpose == DEBIT && credit.purpose == CREDIT
    && debit.amount == credit.amount
    && debit.accountId != credit.accountId
  }

  predicate LinesValid(lines: seq<TransactionLine>, transactionCount: nat, accountCount: nat) {
    && |lines| == 2 * transactionCount
    && (forall i | 0 <= i < |lines| :: lines[i].id == i + 1 && 1 <= lines[i].accountId <= accountCount)
    && (forall k | 0 <= k < transactionCount :: EntryPair(lines, k))
  }

  /**
   * What the schema's constraints and the transaction service together keep true of a committed
   * store: serial ids, unique emails, account numbers and references, foreign keys that resolve,
   * and exactly one debit and one credit line per transaction.
   */
  predicate Valid(t: Tables) {
    && UsersValid(t.users)
    && AccountsValid(t.accounts, |t.users|)
    && TransactionsValid(t.transactions)
    && LinesValid(t.lines, |t.transactions|, |t.accounts|)
  }

  /** The store after migration and seeding: user 1 owns the genesis account. */
  function Seeded(): (t: Tables)
    ensures Valid(t)
    ensures NumberTaken(t.accounts, GenesisAccountNumber)
  {
    var t := Tables([User(1, "primary@accounts.com")], [Account(1, 1, GenesisAccountNumber)], [], []);
    assert t.accounts[0].accountNumber == GenesisAccountNumber;
    t
  }

  // ---------------------------------------------------------------------------
  // Facts about lookups in a valid store

  /** With serial ids, an id names a row exactly when it is between 1 and the table's size. */
  lemma SerialLookups(t: Tables)
    requires Valid(t)
    ensures forall id: int :: UserExists(t.users, id) <==> 1 <= id <= |t.users|
    ensures forall id: nat :: AccountExists(t.accounts, id) <==> 1 <= id <= |t.accounts|
    ensures forall id: nat :: TransactionExists(t.transactions, id) <==> 1 <= id <= |t.transactions|
  {
    forall id: int | 1 <= id <= |t.users| ensures UserExists(t.users, id) {
      assert t.users[id - 1].id == id;
    }
    forall id: nat | 1 <= id <= |t.accounts| ensures AccountExists(t.accounts, id) {
      assert t.accounts[id - 1].id == id;
    }
    forall id: nat | 1 <= id <= |t.transactions| ensures TransactionExists(t.transactions, id) {
      assert t.transactions[id - 1].id == id;
    }
  }

  /** Inserting a user whose email is free keeps the store valid. */
  lemma AddUserKeepsValid(t: Tables, email: string)
    requires Valid(t) && !EmailTaken(t.users, email)
    ensures Valid(AddUser(t, email))
  {
    var us := AddUser(t, email).users;
    forall i, j | 0 <= i < j < |us| ensures us[i].email != us[j].email {
      if j == |t.users| {
        assert us[i] == t.users[i];
      }
    }
  }

  /** Inserting an account that violates no constraint keeps the store valid. */
  lemma AddAccountKeepsValid(t: Tables, userId: int, number: string)
    requires Valid(t) && AccountInsertError(t, userId, number).None?
    ensures Valid(AddAccount(t, userId, number))
  {
    SerialLookups(t);
    var accs := AddAccount(t, userId, number).accounts;
    forall i, j | 0 <= i < j < |accs| ensures accs[i].accountNumber != accs[j].accountNumber {
      if j == |t.accounts| {
        assert accs[i] == t.accounts[i];
      }
    }
  }

  // ---------------------------------------------------------------------------
  // The database and its unit of work

  /** The committed state of the database. */
  class Database {
    var tables: Tables

    /** A freshly migrated and seeded database. */
    constructor ()
      ensures tables == Seeded()
    {
      tables := Seeded();
    }
  }

  /** A unit of work: a private copy of the tables that only Commit publishes; a rollback discards it. */
  class Tx {
    const db: Database
    var tables: Tables
    var done: bool

    /** Begin a unit of work on `db`. */
    constructor (db: Database)
      ensures this.db == db && tables == db.tables && !done
    {
      this.db := db;
      tables := db.tables;
      done := false;
    }

    method Commit()
      requires !done
      modifies this`done, db
      ensures done && db.tables == tables
    {
      db.tables := tables;
      done := true;
    }

    /** Abandon the unit of work: the database keeps its committed state. */
    method Rollback()
      modifies this`done
      ensures done
    {
      done := true;
    }
  }
}
