/**
 * The transaction service: validate a deposit or transfer request, turn a deposit into a
 * transfer from the genesis account, resolve both accounts, insert the transaction (its
 * reference is the idempotency key), check the source's funds unless it is the genesis
 * account, append a debit line and a credit line, and commit - stopping at the first failure.
 */
module TransactionService {
  import opened Wrappers
  import opened Ledger
  import Http
  import AccountsRepo
  import TransactionsRepo

  const Deposit: string := "deposit"
  const Transfer: string := "transfer"

  /** The stored amount is the request's amount times this factor. */
  const Scale: int := 100

  datatype Request = Request(from: string, to: string, kind: string, amount: int, reference: string)

  datatype ValidationError =
    | DestinationRequired  // a deposit without `to`
    | GenesisNotAllowed    // a deposit into the genesis account
    | AccountsRequired     // a transfer without `from` or `to`
    | TypeRequired         // neither "deposit" nor "transfer"
    | AmountRequired       // a zero amount

  /** Why a request was turned down. */
  datatype Failure =
    | Invalid(why: ValidationError)
    | AccountsNotResolved      // the lookup of {from, to} did not return two accounts
    | DuplicateTransaction     // the reference is already in use
    | InsufficientBalance
    | LineNotCreated(cause: StoreError)
    | NilAccount               // an account missing from the lookup result is dereferenced

  /** The status the handler writes for each failure; no failure is answered 200. */
  function StatusOf(f: Failure): (s: Http.Status)
    ensures s != Http.Ok
    ensures s == Http.BadRequest <==> f.Invalid?
    ensures s == Http.Conflict <==> f == DuplicateTransaction
    ensures s == Http.UnprocessableEntity <==> f == InsufficientBalance
    ensures s == Http.InternalServerError <==> f == AccountsNotResolved || f.LineNotCreated?
    ensures s == Http.Crash <==> f == NilAccount
  {
    match f
    case Invalid(_) => Http.BadRequest
    case AccountsNotResolved => Http.InternalServerError
    case DuplicateTransaction => Http.Conflict
    case InsufficientBalance => Http.UnprocessableEntity
    case LineNotCreated(_) => Http.InternalServerError
    case NilAccount => Http.Crash
  }

  /** The request's own checks, in the order the handler makes them. */
  function Validate(req: Request): (err: Option<ValidationError>)
    ensures err.None? ==> req.kind == Deposit || req.kind == Transfer
    ensures req.kind != Deposit && req.kind != Transfer ==> err == Some(TypeRequired)
    ensures req.kind == Deposit ==> (err.None? <==> req.to != "" && req.to != GenesisAccountNumber && req.amount != 0)
    ensures req.kind == Transfer ==> (err.None? <==> req.from != "" && req.to != "" && req.amount != 0)
    ensures req.amount == 0 ==> err.Some?
  {
    if req.kind == Deposit then
      if req.to == "" then Some(DestinationRequired)
      else if req.to == GenesisAccountNumber then Some(GenesisNotAllowed)
      else if req.amount == 0 then Some(AmountRequired)
      else None
    else if req.kind == Transfer then
      if req.from == "" || req.to == "" then Some(AccountsRequired)
      else if req.amount == 0 then Some(AmountRequired)
      else None
    else Some(TypeRequired)
  }

  /** The account that is debited: the genesis account for a deposit, `from` for a transfer. */
  function Source(req: Request): string {
    if req.kind == Deposit then GenesisAccountNumber else req.from
  }

  /** The first account in the list with the given number, if any. */
  function GetAccountByAccountNumber(accounts: seq<Account>, number: string): (r: Option<Account>)
    ensures r.Some? ==> r.value in accounts && r.value.accountNumber == number
    ensures r.None? <==> !NumberTaken(accounts, number)
    ensures r.Some? ==> exists i | 0 <= i < |accounts| ::
      accounts[i] == r.value && forall j | 0 <= j < i :: accounts[j].accountNumber != number
  {
    if accounts == [] then None
    else if accounts[0].accountNumber == number then Some(accounts[0])
    else
      var r := GetAccountByAccountNumber(accounts[1..], number);
      assert r.Some? ==> exists i | 0 <= i < |accounts| ::
        accounts[i] == r.value && forall j | 0 <= j < i :: accounts[j].accountNumber != number by {
        if r.Some? {
          var i :| 0 <= i < |accounts[1..]| && accounts[1..][i] == r.value
            && forall j | 0 <= j < i :: accounts[1..][j].accountNumber != number;
          assert accounts[i + 1] == r.value;
          forall j | 0 <= j < i + 1 ensures accounts[j].accountNumber != number {
            if j > 0 { assert accounts[j] == accounts[1..][j - 1]; }
          }
        }
      }
      assert NumberTaken(accounts, number) <==> NumberTaken(accounts[1..], number) by {
        forall i | 0 <= i < |accounts| - 1 ensures accounts[1..][i] == accounts[i + 1] { }
        if NumberTaken(accounts, number) {
          var i :| 0 <= i < |accounts| && accounts[i].accountNumber == number;
          assert accounts[1..][i - 1].accountNumber == number;
        }
      }
      r
  }

  /** Looking a number up after appending one account. */
  lemma {:induction false} LookupSnoc(s: seq<Account>, a: Account, n: string)
    ensures GetAccountByAccountNumber(s + [a], n)
         == if NumberTaken(s, n) then GetAccountByAccountNumber(s, n)
            else if a.accountNumber == n then Some(a) else None
  {
    if s != [] {
      assert (s + [a])[1..] == s[1..] + [a];
      if s[0].accountNumber != n {
        LookupSnoc(s[1..], a, n);
        assert GetAccountByAccountNumber(s, n) == GetAccountByAccountNumber(s[1..], n);
      } else {
        assert s[0].accountNumber == n;
      }
    } else {
      assert [a][1..] == [];
    }
  }

  /** The first account of the selection with a requested number is the first one of the table. */
  lemma {:induction false} LookupThroughSelection(accounts: seq<Account>, numbers: seq<string>, n: string)
    requires n in numbers
    ensures GetAccountByAccountNumber(AccountsRepo.SelectByNumbers(accounts, numbers), n)
         == GetAccountByAccountNumber(accounts, n)
  {
    if accounts != [] {
      var prefix, last := accounts[..|accounts| - 1], accounts[|accounts| - 1];
      assert accounts == prefix + [last];
      LookupThroughSelection(prefix, numbers, n);
      var rest := AccountsRepo.SelectByNumbers(prefix, numbers);
      LookupSnoc(prefix, last, n);
      assert NumberTaken(rest, n) == NumberTaken(prefix, n);
      if last.accountNumber in numbers {
        LookupSnoc(rest, last, n);
      }
    }
  }

  /**
   * The funds rule. `AsWritten` is the handler's check, which compares the stored balance with
   * the unscaled amount and lets negative amounts through; `Intended` compares it with the
   * amount as it will be stored and refuses amounts below zero.
   */
  datatype Rules = AsWritten | Intended

  predicate FundsSuffice(rules: Rules, balance: int, amount: int) {
    match rules
    case AsWritten => balance >= amount
    case Intended => balance >= amount * Scale
  }

  /**
   * One request against a committed store: the outcome and the store afterwards. Every failure
   * leaves the store as it was; a success adds one transaction and two lines and nothing else.
   */
  function Run(t: Tables, req: Request, rules: Rules): (result: (Outcome<Failure>, Tables))
    ensures result.0.Fail? ==> result.1 == t
    ensures result.0.Pass? ==>
      && result.1.users == t.users && result.1.accounts == t.accounts
      && |result.1.transactions| == |t.transactions| + 1
      && |result.1.lines| == |t.lines| + 2
  {
    var invalid := Validate(req);
    if invalid.Some? then (Fail(Invalid(invalid.value)), t)
    else if rules == Intended && req.amount < 0 then (Fail(Invalid(AmountRequired)), t)
    else
      var accounts := AccountsRepo.SelectByNumbers(t.accounts, [Source(req), req.to]);
      if |accounts| != 2 then (Fail(AccountsNotResolved), t)
      else if ReferenceTaken(t.transactions, req.reference) then (Fail(DuplicateTransaction), t)
      else Record(t, req, rules, accounts)
  }

  /** The steps after the transaction row is inserted: the funds check and the two lines. */
  function Record(t: Tables, req: Request, rules: Rules, accounts: seq<Account>): (result: (Outcome<Failure>, Tables))
    ensures result.0.Fail? ==> result.1 == t
    ensures result.0.Pass? ==>
      && result.1.users == t.users && result.1.accounts == t.accounts
      && |result.1.transactions| == |t.transactions| + 1
      && |result.1.lines| == |t.lines| + 2
  {
    var from := Source(req);
    var txId := |t.transactions| + 1;
    var t1 := AddTransaction(t, req.reference);
    var source := GetAccountByAccountNumber(accounts, from);
    var destination := GetAccountByAccountNumber(accounts, req.to);
    if source.None? then (Fail(NilAccount), t)
    else if from != GenesisAccountNumber
      && !FundsSuffice(rules, TransactionsRepo.Balance(t1.lines, source.value.id), req.amount)
    then (Fail(InsufficientBalance), t)
    else if destination.None? then (Fail(NilAccount), t)
    else Post(t, t1, txId, source.value.id, destination.value.id, req.amount * Scale)
  }

  /** Append the debit line and then the credit line of transaction `txId`. */
  function Post(t: Tables, t1: Tables, txId: nat, sourceId: nat, destinationId: nat, amount: int)
    : (result: (Outcome<Failure>, Tables))
    requires t1.users == t.users && t1.accounts == t.accounts && t1.lines == t.lines
    requires |t1.transactions| == |t.transactions| + 1
    ensures result.0.Fail? ==> result.1 == t
    ensures result.0.Pass? ==>
      && result.1.users == t.users && result.1.accounts == t.accounts
      && |result.1.transactions| == |t.transactions| + 1
      && |result.1.lines| == |t.lines| + 2
  {
    var debitError := LineInsertError(t1, txId, sourceId);
    if debitError.Some? then (Fail(LineNotCreated(debitError.value)), t)
    else
      var t2 := AddLine(t1, txId, sourceId, amount, DEBIT);
      var creditError := LineInsertError(t2, txId, destinationId);
      if creditError.Some? then (Fail(LineNotCreated(creditError.value)), t)
      else (Pass, AddLine(t2, txId, destinationId, amount, CREDIT))
  }

  /** What the handler does. */
  function Process(t: Tables, req: Request): (Outcome<Failure>, Tables) {
    Run(t, req, AsWritten)
  }

  /**
   * createTransaction: the whole request inside one unit of work on `db`, which is committed
   * only when both lines are in; on every failure the database keeps its committed state.
   */
  method CreateTransaction(db: Database, req: Request) returns (r: Outcome<Failure>)
    modifies db
    ensures (r, db.tables) == Process(old(db.tables), req)
    ensures r.Fail? ==> db.tables == old(db.tables)
  {
    ghost var t := db.tables;
    var invalid := Validate(req);
    if invalid.Some? {
      return Fail(Invalid(invalid.value));
    }

    var tx := new Tx(db);

    var from := req.from;
    if req.kind == Deposit {
      from := GenesisAccountNumber;
    }
    assert from == Source(req);

    var found := AccountsRepo.GetAccounts(tx, [from, req.to]);
    if found.Failure? {
      return Fail(AccountsNotResolved);
    }
    var accounts := found.value;
    if |accounts| != 2 {
      return Fail(AccountsNotResolved);
    }

    var created := TransactionsRepo.Create(tx, req.reference);
    if created.Failure? {
      tx.Rollback();
      return Fail(DuplicateTransaction);
    }
    r := Settle(tx, req, accounts, created.value);
  }

  /**
   * The rest of createTransaction once the transaction row is in the unit of work: the funds
   * check (skipped when the source is the genesis account), the debit and the credit line, and
   * the commit; a failure rolls back and leaves the database as it was.
   */
  method Settle(tx: Tx, req: Request, accounts: seq<Account>, txId: nat) returns (r: Outcome<Failure>)
    requires !tx.done
    requires !ReferenceTaken(tx.db.tables.transactions, req.reference)
    requires tx.tables == AddTransaction(tx.db.tables, req.reference)
    requires txId == |tx.db.tables.transactions| + 1
    modifies tx, tx.db
    ensures (r, tx.db.tables) == Record(old(tx.db.tables), req, AsWritten, accounts)
  {
    ghost var t := tx.db.tables;
    ghost var t1 := tx.tables;
    var from := Source(req);
    if from != GenesisAccountNumber {
      var account := GetAccountByAccountNumber(accounts, from);
      if account.None? {
        return Fail(NilAccount);
      }
      var balance := TransactionsRepo.GetBalance(tx, account.value.id);
      if balance < req.amount {
        tx.Rollback();
        return Fail(InsufficientBalance);
      }
    }

    var source := GetAccountByAccountNumber(accounts, from);
    if source.None? {
      return Fail(NilAccount);
    }
    var destination := GetAccountByAccountNumber(accounts, req.to);
    if destination.None? {
      return Fail(NilAccount);
    }
    assert Record(t, req, AsWritten, accounts) == Post(t, t1, txId, source.value.id, destination.value.id, req.amount * Scale);

    var debit := TransactionsRepo.CreateTransactionLine(tx, txId, source.value.id, req.amount * Scale, DEBIT);
    if debit.Failure? {
      tx.Rollback();
      return Fail(LineNotCreated(debit.error));
    }
    var credit := TransactionsRepo.CreateTransactionLine(tx, txId, destination.value.id, req.amount * Scale, CREDIT);
    if credit.Failure? {
      tx.Rollback();
      return Fail(LineNotCreated(credit.error));
    }

    tx.Commit();
    return Pass;
  }
}
