/** The users repository, reduced to the insert that the user service performs. */
module UsersRepo {
  import opened Wrappers
  import opened Ledger

  /** Create: insert a user with the given email; emails are unique. */
  method Create(tx: Tx, email: string) returns (r: Outcome<StoreError>)
    modifies tx`tables
    ensures EmailTaken(old(tx.tables).users, email) ==> r == Fail(DuplicateEmail) && tx.tables == old(tx.tables)
    ensures !EmailTaken(old(tx.tables).users, email) ==> r == Pass && tx.tables == AddUser(old(tx.tables), email)
  {
    if EmailTaken(tx.tables.users, email) {
      return Fail(DuplicateEmail);
    }
    tx.tables := AddUser(tx.tables, email);
    r := Pass;
  }
}
