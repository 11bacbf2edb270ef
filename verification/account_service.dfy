/**
 * The account service: validating a create-account request, rendering a random draw as a
 * nine-digit account number, creating the account (one attempt, no retry on a collision), and
 * looking an account up together with its balance.
 */
module AccountService {
  import opened Wrappers
  import opened Decimal
  import opened Ledger
  import Http
  import AccountsRepo
  import TransactionsRepo
  import TransactionService

  /** The random draw is taken below this bound. */
  const NumberSpace: nat := 1_000_000_000

  /** Why an account request was turned down. */
  datatype AccountError =
    | Invalid                 // user_id is missing (zero)
    | NotCreated(cause: StoreError)
    | LookupFailed            // "failed to get accounts"
    | NilAccount              // the requested number is not in the store and the lookup result is dereferenced

  /** The status the handlers write for each failure; no failure is answered 200. */
  function StatusOf(e: AccountError): (s: Http.Status)
    ensures s != Http.Ok
    ensures s == Http.BadRequest <==> e == Invalid
    ensures s == Http.InternalServerError <==> e.NotCreated? || e == LookupFailed
    ensures s == Http.Crash <==> e == NilAccount
  {
    match e
    case Invalid => Http.BadRequest
    case NotCreated(_) => Http.InternalServerError
    case LookupFailed => Http.InternalServerError
    case NilAccount => Http.Crash
  }

  /** An account as the lookup returns it: the stored row and its balance in cents. */
  datatype AccountView = AccountView(account: Account, balance: int)

  /** The request's only check: a user id must be given, and JSON's missing number is zero. */
  predicate ValidRequest(userId: int) {
    userId != 0
  }

  // ---------------------------------------------------------------------------
  // Account numbers

  /** "%09d" of the draw. */
  function CreateAccountNumber(n: nat): (number: string)
    requires n < NumberSpace
    ensures |number| == 9 && AllDigits(number)
    ensures Value(number) == n
  {
    assert Pow10(9) == NumberSpace;
    ZeroPaddedRoundTrip(n, 9);
    ZeroPadded(n, 9)
  }

  /** Different draws give different numbers. */
  lemma AccountNumberInjective(m: nat, n: nat)
    requires m < NumberSpace && n < NumberSpace
    ensures CreateAccountNumber(m) == CreateAccountNumber(n) <==> m == n
  {
  }

  /** The draw 0 gives the genesis account's number. */
  lemma ZeroDrawIsGenesis()
    ensures CreateAccountNumber(0) == GenesisAccountNumber
  {
    assert ZeroPadded(0, 9) == "000000000";
  }

  // ---------------------------------------------------------------------------
  // createAccount

  /** createAccount against a committed store: the outcome and the store afterwards. */
  function OpenAccount(t: Tables, userId: int, n: nat): (result: (Result<Account, AccountError>, Tables))
    requires n < NumberSpace
  {
    if !ValidRequest(userId) then (Failure(Invalid), t)
    else
      var number := CreateAccountNumber(n);
      var err := AccountInsertError(t, userId, number);
      if err.Some? then (Failure(NotCreated(err.value)), t)
      else (Success(Account(|t.accounts| + 1, userId, number)), AddAccount(t, userId, number))
  }

  /**
   * createAccount: validate, render the draw `n`, insert the account in a unit of work on `db`
   * and commit. A failed insert is not retried with another number.
   */
  method CreateAccount(db: Database, userId: int, n: nat) returns (r: Result<Account, AccountError>)
    requires n < NumberSpace
    modifies db
    ensures (r, db.tables) == OpenAccount(old(db.tables), userId, n)
  {
    if !ValidRequest(userId) {
      return Failure(Invalid);
    }
    var number := CreateAccountNumber(n);
    var tx := new Tx(db);
    var created := AccountsRepo.Create(tx, userId, number);
    if created.Failure? {
      return Failure(NotCreated(created.error));
    }
    tx.Commit();
    return Success(created.value);
  }

  /**
   * Against a valid store: the request succeeds exactly when the user id is non-zero, names an
   * existing user and the rendered number is free; a success adds exactly one account with that
   * user and number, every failure leaves the store as it was, and the store stays valid.
   */
  lemma OpenAccountOutcome(t: Tables, userId: int, n: nat)
    requires Valid(t) && n < NumberSpace
    ensures var (r, after) := OpenAccount(t, userId, n);
      && (userId == 0 ==> r == Failure(Invalid))
      && (r.Success? <==> userId != 0 && 1 <= userId <= |t.users| && !NumberTaken(t.accounts, CreateAccountNumber(n)))
      && (r.Success? ==> r.value == Account(|t.accounts| + 1, userId, CreateAccountNumber(n))
                         && after.accounts == t.accounts + [r.value]
                         && after.users == t.users && after.transactions == t.transactions && after.lines == t.lines)
      && (r.Failure? ==> after == t)
      && Valid(after)
  {
    SerialLookups(t);
    if userId != 0 && AccountInsertError(t, userId, CreateAccountNumber(n)).None? {
      AddAccountKeepsValid(t, userId, CreateAccountNumber(n));
    }
  }

  /** A draw whose number is already taken fails with a duplicate-number error; nothing is retried or added. */
  lemma CollisionNotRetried(t: Tables, userId: int, n: nat)
    requires n < NumberSpace && userId != 0 && NumberTaken(t.accounts, CreateAccountNumber(n))
    ensures OpenAccount(t, userId, n) == (Failure(NotCreated(DuplicateAccountNumber)), t)
  {
  }

  /** The draw 0 always collides with the seeded genesis account. */
  lemma ZeroDrawCollides(t: Tables, userId: int)
    requires userId != 0 && NumberTaken(t.accounts, GenesisAccountNumber)
    ensures OpenAccount(t, userId, 0) == (Failure(NotCreated(DuplicateAccountNumber)), t)
  {
    ZeroDrawIsGenesis();
  }

  // ---------------------------------------------------------------------------
  // getAccount

  /**
   * getAccount: look up [number, genesis] in a unit of work, pick the requested account and
   * attach its balance. Nothing is written. An unknown number is dereferenced as nil in the
   * handler; here it is the `NilAccount` error.
   */
  method GetAccount(db: Database, number: string) returns (r: Result<AccountView, AccountError>)
    ensures r.Failure? <==> !NumberTaken(db.tables.accounts, number)
    ensures r.Failure? ==> r.error == NilAccount
    ensures r.Success? ==>
      && r.value.account in db.tables.accounts
      && r.value.account.accountNumber == number
      && r.value.balance == TransactionsRepo.Balance(db.tables.lines, r.value.account.id)
      && r.value.balance == TransactionsRepo.SumFor(db.tables.lines, r.value.account.id, CREDIT)
                          - TransactionsRepo.SumFor(db.tables.lines, r.value.account.id, DEBIT)
  {
    var tx := new Tx(db);
    var found := AccountsRepo.GetAccounts(tx, [number, GenesisAccountNumber]);
    if found.Failure? {
      // the lookup is refused only for an empty list of numbers, so this path is not taken
      return Failure(LookupFailed);
    }
    TransactionService.LookupThroughSelection(tx.tables.accounts, [number, GenesisAccountNumber], number);
    var account := TransactionService.GetAccountByAccountNumber(found.value, number);
    if account.None? {
      return Failure(NilAccount);
    }
    var balance := TransactionsRepo.GetBalance(tx, account.value.id);
    return Success(AccountView(account.value, balance));
  }
}
