/**
 * What the transaction service guarantees, stated over the pure model `Run` of one request:
 * the outcome of every request against a valid store, the exact entry a success appends,
 * idempotency through the reference, the funds check, double-entry conservation, and the
 * two ways the handler as written lets a non-genesis account go below zero.
 */
module TransactionProperties {
  import opened Wrappers
  import opened Ledger
  import opened TransactionService
  import Http
  import AccountsRepo
  import TransactionsRepo

  /** In a valid store an account found by number is a row of the table, with an id in range. */
  lemma FoundAccount(t: Tables, n: string)
    requires Valid(t) && NumberTaken(t.accounts, n)
    ensures var a := GetAccountByAccountNumber(t.accounts, n).value;
      1 <= a.id <= |t.accounts| && t.accounts[a.id - 1] == a && a.accountNumber == n
  {
    var a := GetAccountByAccountNumber(t.accounts, n).value;
    var i :| 0 <= i < |t.accounts| && t.accounts[i] == a;
  }

  // ---------------------------------------------------------------------------
  // The outcome of one request against a valid store

  /**
   * The outcome stated directly on the store: the request's checks, then two distinct existing
   * accounts, a fresh reference, and the funds rule for a non-genesis source.
   */
  function Expected(t: Tables, req: Request, rules: Rules): Outcome<Failure> {
    var from := Source(req);
    if Validate(req).Some? then Fail(Invalid(Validate(req).value))
    else if rules == Intended && req.amount < 0 then Fail(Invalid(AmountRequired))
    else if from == req.to || !NumberTaken(t.accounts, from) || !NumberTaken(t.accounts, req.to) then
      Fail(AccountsNotResolved)
    else if ReferenceTaken(t.transactions, req.reference) then Fail(DuplicateTransaction)
    else if from != GenesisAccountNumber
      && !FundsSuffice(rules, TransactionsRepo.Balance(t.lines, GetAccountByAccountNumber(t.accounts, from).value.id), req.amount)
    then Fail(InsufficientBalance)
    else Pass
  }

  /** What an expected success says about the request and the store. */
  lemma ExpectedPass(t: Tables, req: Request, rules: Rules)
    requires Expected(t, req, rules) == Pass
    ensures Validate(req).None? && !ReferenceTaken(t.transactions, req.reference)
    ensures Source(req) != req.to && NumberTaken(t.accounts, Source(req)) && NumberTaken(t.accounts, req.to)
    ensures rules == Intended ==> req.amount > 0
    ensures Source(req) != GenesisAccountNumber ==>
      FundsSuffice(rules, TransactionsRepo.Balance(t.lines, GetAccountByAccountNumber(t.accounts, Source(req)).value.id), req.amount)
  {
  }

  /** The store after a successful request: one transaction, its debit line, its credit line. */
  function Entry(t: Tables, reference: string, sourceId: nat, destinationId: nat, amount: int): Tables {
    var txId := |t.transactions| + 1;
    Tables(
      t.users,
      t.accounts,
      t.transactions + [Transaction(txId, reference)],
      t.lines + [TransactionLine(|t.lines| + 1, txId, sourceId, amount, DEBIT),
                 TransactionLine(|t.lines| + 2, txId, destinationId, amount, CREDIT)])
  }

  /** Every line of a valid lines table belongs to an existing transaction. */
  lemma LineTransactionIds(lines: seq<TransactionLine>, transactionCount: nat, accountCount: nat)
    requires LinesValid(lines, transactionCount, accountCount)
    ensures forall i | 0 <= i < |lines| :: lines[i].transactionId <= transactionCount
  {
    forall i | 0 <= i < |lines| ensures lines[i].transactionId <= transactionCount {
      var k := i / 2;
      assert EntryPair(lines, k);
    }
  }

  /** Appending a well-formed entry to a valid store: both inserts succeed and the store stays valid. */
  lemma {:induction false} PostKeepsValid(t: Tables, reference: string, sourceId: nat, destinationId: nat, amount: int)
    requires Valid(t) && !ReferenceTaken(t.transactions, reference)
    requires 1 <= sourceId <= |t.accounts| && 1 <= destinationId <= |t.accounts| && sourceId != destinationId
    ensures Post(t, AddTransaction(t, reference), |t.transactions| + 1, sourceId, destinationId, amount)
         == (Pass, Entry(t, reference, sourceId, destinationId, amount))
    ensures Valid(Entry(t, reference, sourceId, destinationId, amount))
  {
    var txId := |t.transactions| + 1;
    var t1 := AddTransaction(t, reference);
    SerialLookups(t1.(transactions := t.transactions)); // ids of accounts
    assert t1.transactions[txId - 1].id == txId;
    assert t.accounts[sourceId - 1].id == sourceId;
    assert t.accounts[destinationId - 1].id == destinationId;
    LineTransactionIds(t.lines, |t.transactions|, |t.accounts|);
    assert LineInsertError(t1, txId, sourceId).None?;
    var t2 := AddLine(t1, txId, sourceId, amount, DEBIT);
    assert !PairTaken(t2.lines, txId, destinationId) by {
      forall i | 0 <= i < |t2.lines| ensures !(t2.lines[i].transactionId == txId && t2.lines[i].accountId == destinationId) {
        if i < |t.lines| { assert t2.lines[i] == t.lines[i]; }
      }
    }
    assert LineInsertError(t2, txId, destinationId).None?;
    var e := Entry(t, reference, sourceId, destinationId, amount);
    assert AddLine(t2, txId, destinationId, amount, CREDIT) == e;

    forall i, j | 0 <= i < j < |e.transactions| ensures e.transactions[i].reference != e.transactions[j].reference {
      if j == |t.transactions| { assert e.transactions[i] == t.transactions[i]; }
    }
    forall k | 0 <= k < |e.transactions| ensures EntryPair(e.lines, k) {
      if k < |t.transactions| {
        assert EntryPair(t.lines, k);
        assert e.lines[2 * k] == t.lines[2 * k] && e.lines[2 * k + 1] == t.lines[2 * k + 1];
      }
    }
  }

  /**
   * Once the request is valid, both accounts are resolved and the reference is fresh, the rest of
   * the handler is the funds check followed by the entry, which keeps the store valid.
   */
  lemma RecordUnderValid(t: Tables, req: Request, rules: Rules)
    requires Valid(t) && Validate(req).None?
    requires Source(req) != req.to && NumberTaken(t.accounts, Source(req)) && NumberTaken(t.accounts, req.to)
    requires !ReferenceTaken(t.transactions, req.reference)
    ensures var src := GetAccountByAccountNumber(t.accounts, Source(req)).value;
      var dst := GetAccountByAccountNumber(t.accounts, req.to).value;
      var e := Entry(t, req.reference, src.id, dst.id, req.amount * Scale);
      && Record(t, req, rules, AccountsRepo.SelectByNumbers(t.accounts, [Source(req), req.to]))
         == (if Source(req) != GenesisAccountNumber
               && !FundsSuffice(rules, TransactionsRepo.Balance(t.lines, src.id), req.amount)
             then (Fail(InsufficientBalance), t)
             else (Pass, e))
      && Valid(e)
  {
    var from := Source(req);
    var numbers := [from, req.to];
    LookupThroughSelection(t.accounts, numbers, from);
    LookupThroughSelection(t.accounts, numbers, req.to);
    FoundAccount(t, from);
    FoundAccount(t, req.to);
    var src := GetAccountByAccountNumber(t.accounts, from).value;
    var dst := GetAccountByAccountNumber(t.accounts, req.to).value;
    PostKeepsValid(t, req.reference, src.id, dst.id, req.amount * Scale);
  }

  /**
   * Against a valid store the outcome is `Expected`: the accounts are resolved, or the request is
   * refused, before anything is dereferenced, so no request hits a missing account or a refused
   * line insert; and the store after the request is valid again.
   */
  lemma {:induction false} OutcomeUnderValid(t: Tables, req: Request, rules: Rules)
    requires Valid(t)
    ensures Run(t, req, rules).0 == Expected(t, req, rules)
    ensures Valid(Run(t, req, rules).1)
    ensures Run(t, req, rules).0.Pass? ==>
      Run(t, req, rules).1 == Entry(t, req.reference,
        GetAccountByAccountNumber(t.accounts, Source(req)).value.id,
        GetAccountByAccountNumber(t.accounts, req.to).value.id, req.amount * Scale)
  {
    var from := Source(req);
    var accounts := AccountsRepo.SelectByNumbers(t.accounts, [from, req.to]);
    AccountsRepo.ResolvesTwo(t.accounts, |t.users|, from, req.to);
    if Validate(req).None? && !(rules == Intended && req.amount < 0)
      && from != req.to && NumberTaken(t.accounts, from) && NumberTaken(t.accounts, req.to)
      && !ReferenceTaken(t.transactions, req.reference)
    {
      assert Run(t, req, rules) == Record(t, req, rules, accounts);
      RecordUnderValid(t, req, rules);
    } else {
      assert Run(t, req, rules).1 == t;
    }
  }

  /**
   * Against a valid store no request reaches a nil dereference or a refused line insert: every
   * refusal is answered 400, 409, 422, or 500 for unresolved accounts.
   */
  lemma NoCrashUnderValid(t: Tables, req: Request, rules: Rules)
    requires Valid(t)
    ensures var r := Run(t, req, rules).0;
      r.Fail? ==> StatusOf(r.error) != Http.Crash && (StatusOf(r.error) == Http.InternalServerError <==> r.error == AccountsNotResolved)
  {
    OutcomeUnderValid(t, req, rules);
  }

  /** A success appends exactly the entry the handler builds: debit on the source, credit on `to`. */
  lemma SuccessAppendsOneEntry(t: Tables, req: Request, rules: Rules)
    requires Run(t, req, rules).0.Pass?
    ensures NumberTaken(t.accounts, Source(req)) && NumberTaken(t.accounts, req.to)
    ensures Validate(req).None? && !ReferenceTaken(t.transactions, req.reference)
    ensures Run(t, req, rules).1 == Entry(t, req.reference,
      GetAccountByAccountNumber(t.accounts, Source(req)).value.id,
      GetAccountByAccountNumber(t.accounts, req.to).value.id, req.amount * Scale)
  {
    var from := Source(req);
    var numbers := [from, req.to];
    var accounts := AccountsRepo.SelectByNumbers(t.accounts, numbers);
    assert Validate(req).None? && |accounts| == 2 && !ReferenceTaken(t.transactions, req.reference);
    assert Run(t, req, rules) == Record(t, req, rules, accounts);
    var source := GetAccountByAccountNumber(accounts, from);
    var destination := GetAccountByAccountNumber(accounts, req.to);
    assert source.Some? && destination.Some?;
    LookupThroughSelection(t.accounts, numbers, from);
    LookupThroughSelection(t.accounts, numbers, req.to);
    var txId := |t.transactions| + 1;
    var t1 := AddTransaction(t, req.reference);
    assert Record(t, req, rules, accounts) == Post(t, t1, txId, source.value.id, destination.value.id, req.amount * Scale);
    PostPass(t, req.reference, source.value.id, destination.value.id, req.amount * Scale);
  }

  /** A post that passes appends exactly the entry. */
  lemma PostPass(t: Tables, reference: string, sourceId: nat, destinationId: nat, amount: int)
    requires Post(t, AddTransaction(t, reference), |t.transactions| + 1, sourceId, destinationId, amount).0.Pass?
    ensures Post(t, AddTransaction(t, reference), |t.transactions| + 1, sourceId, destinationId, amount).1
         == Entry(t, reference, sourceId, destinationId, amount)
  {
  }

  // ---------------------------------------------------------------------------
  // Idempotency, the funds check, and how balances move

  /** Replaying a request that succeeded is refused as a duplicate and changes nothing. */
  lemma ReplayRejected(t: Tables, req: Request, rules: Rules)
    requires Run(t, req, rules).0.Pass?
    ensures var after := Run(t, req, rules).1;
      Run(after, req, rules) == (Fail(DuplicateTransaction), after)
  {
    var after := Run(t, req, rules).1;
    SuccessAppendsOneEntry(t, req, rules);
    assert after.transactions[|t.transactions|].reference == req.reference;
  }

  /** A success from a non-genesis source passed the funds rule on the balance before the request. */
  lemma FundsChecked(t: Tables, req: Request, rules: Rules)
    requires Run(t, req, rules).0.Pass? && Source(req) != GenesisAccountNumber
    ensures NumberTaken(t.accounts, Source(req))
    ensures FundsSuffice(rules, TransactionsRepo.Balance(t.lines, GetAccountByAccountNumber(t.accounts, Source(req)).value.id), req.amount)
  {
    LookupThroughSelection(t.accounts, [Source(req), req.to], Source(req));
  }

  /** Appending an entry moves `amount` from the source's balance to the destination's and leaves every other balance alone. */
  lemma EntryBalance(t: Tables, reference: string, sourceId: nat, destinationId: nat, amount: int, id: nat)
    ensures TransactionsRepo.Balance(Entry(t, reference, sourceId, destinationId, amount).lines, id)
         == TransactionsRepo.Balance(t.lines, id)
            - (if id == sourceId then amount else 0) + (if id == destinationId then amount else 0)
  {
    var txId := |t.transactions| + 1;
    var debit := TransactionLine(|t.lines| + 1, txId, sourceId, amount, DEBIT);
    var credit := TransactionLine(|t.lines| + 2, txId, destinationId, amount, CREDIT);
    assert Entry(t, reference, sourceId, destinationId, amount).lines == (t.lines + [debit]) + [credit];
    TransactionsRepo.BalanceAppend(t.lines, debit, id);
    TransactionsRepo.BalanceAppend(t.lines + [debit], credit, id);
  }

  /** A success moves `amount * 100` from the source's balance to the destination's, and no other balance changes. */
  lemma TransferMovesBalance(t: Tables, req: Request, rules: Rules)
    requires Valid(t) && Run(t, req, rules).0.Pass?
    ensures NumberTaken(t.accounts, Source(req)) && NumberTaken(t.accounts, req.to)
    ensures var after := Run(t, req, rules).1.lines;
      var src := GetAccountByAccountNumber(t.accounts, Source(req)).value.id;
      var dst := GetAccountByAccountNumber(t.accounts, req.to).value.id;
      && src != dst
      && TransactionsRepo.Balance(after, src) == TransactionsRepo.Balance(t.lines, src) - req.amount * Scale
      && TransactionsRepo.Balance(after, dst) == TransactionsRepo.Balance(t.lines, dst) + req.amount * Scale
      && forall id: nat | id != src && id != dst :: TransactionsRepo.Balance(after, id) == TransactionsRepo.Balance(t.lines, id)
  {
    PassUnderValid(t, req, rules);
    var src := GetAccountByAccountNumber(t.accounts, Source(req)).value.id;
    var dst := GetAccountByAccountNumber(t.accounts, req.to).value.id;
    EntryMoves(t, req.reference, src, dst, req.amount * Scale);
  }

  /** A success against a valid store resolved two distinct accounts and appended their entry. */
  lemma PassUnderValid(t: Tables, req: Request, rules: Rules)
    requires Valid(t) && Run(t, req, rules).0.Pass?
    ensures NumberTaken(t.accounts, Source(req)) && NumberTaken(t.accounts, req.to)
    ensures var src := GetAccountByAccountNumber(t.accounts, Source(req)).value.id;
      var dst := GetAccountByAccountNumber(t.accounts, req.to).value.id;
      && src != dst
      && Run(t, req, rules).1 == Entry(t, req.reference, src, dst, req.amount * Scale)
  {
    OutcomeUnderValid(t, req, rules);
    ExpectedPass(t, req, rules);
    FoundAccount(t, Source(req));
    FoundAccount(t, req.to);
  }

  /** An entry between two distinct accounts moves `amount` from one to the other and nothing else. */
  lemma EntryMoves(t: Tables, reference: string, src: nat, dst: nat, amount: int)
    requires src != dst
    ensures var after := Entry(t, reference, src, dst, amount).lines;
      && TransactionsRepo.Balance(after, src) == TransactionsRepo.Balance(t.lines, src) - amount
      && TransactionsRepo.Balance(after, dst) == TransactionsRepo.Balance(t.lines, dst) + amount
      && forall id: nat | id != src && id != dst :: TransactionsRepo.Balance(after, id) == TransactionsRepo.Balance(t.lines, id)
  {
    forall id: nat ensures TransactionsRepo.Balance(Entry(t, reference, src, dst, amount).lines, id)
      == TransactionsRepo.Balance(t.lines, id) - (if id == src then amount else 0) + (if id == dst then amount else 0)
    {
      EntryBalance(t, reference, src, dst, amount, id);
    }
  }

  // ---------------------------------------------------------------------------
  // Double entry: the balances of all accounts sum to zero

  /** The sum of the balances of accounts 1 .. count. */
  function SumBalances(lines: seq<TransactionLine>, count: nat): int {
    if count == 0 then 0 else SumBalances(lines, count - 1) + TransactionsRepo.Balance(lines, count)
  }

  lemma {:induction false} SumBalancesAppend(lines: seq<TransactionLine>, line: TransactionLine, count: nat)
    ensures SumBalances(lines + [line], count)
         == SumBalances(lines, count) + (if 1 <= line.accountId <= count then TransactionsRepo.Effect(line) else 0)
  {
    if count > 0 {
      SumBalancesAppend(lines, line, count - 1);
      TransactionsRepo.BalanceAppend(lines, line, count);
    }
  }

  /** When every line names one of the accounts, the balances add up to the total over all lines. */
  lemma {:induction false} SumBalancesIsTotal(lines: seq<TransactionLine>, count: nat)
    requires forall i | 0 <= i < |lines| :: 1 <= lines[i].accountId <= count
    ensures SumBalances(lines, count) == TransactionsRepo.Total(lines)
  {
    if lines == [] {
      forall id: nat ensures TransactionsRepo.Balance([], id) == 0 { }
      ZeroSum(count);
    } else {
      var prefix, last := lines[..|lines| - 1], lines[|lines| - 1];
      assert lines == prefix + [last];
      SumBalancesIsTotal(prefix, count);
      SumBalancesAppend(prefix, last, count);
    }
  }

  lemma {:induction false} ZeroSum(count: nat)
    ensures SumBalances([], count) == 0
  {
    if count > 0 {
      ZeroSum(count - 1);
    }
  }

  /** Paired debit and credit lines of equal amount total zero. */
  lemma {:induction false} PairsTotalZero(lines: seq<TransactionLine>, n: nat)
    requires |lines| == 2 * n
    requires forall k | 0 <= k < n :: EntryPair(lines, k)
    ensures TransactionsRepo.Total(lines) == 0
  {
    if n > 0 {
      var prefix := lines[..2 * n - 2];
      forall k | 0 <= k < n - 1 ensures EntryPair(prefix, k) {
        assert EntryPair(lines, k);
      }
      PairsTotalZero(prefix, n - 1);
      assert EntryPair(lines, n - 1);
      assert lines[..2 * n - 1][..2 * n - 2] == prefix;
    }
  }

  /** In a valid store the balances of all accounts, the genesis account included, sum to zero. */
  lemma Conservation(t: Tables)
    requires Valid(t)
    ensures SumBalances(t.lines, |t.accounts|) == 0
  {
    PairsTotalZero(t.lines, |t.transactions|);
    SumBalancesIsTotal(t.lines, |t.accounts|);
  }

  // ---------------------------------------------------------------------------
  // Overdrafts: the handler as written, and the rule it evidently intends

  /** No account other than the genesis account has a negative balance. */
  predicate NoOverdraft(t: Tables) {
    forall i | 0 <= i < |t.accounts| && t.accounts[i].accountNumber != GenesisAccountNumber ::
      TransactionsRepo.Balance(t.lines, t.accounts[i].id) >= 0
  }

  /** A fresh store has no overdraft. */
  lemma SeededHasNoOverdraft()
    ensures NoOverdraft(Seeded())
  {
    forall id: nat ensures TransactionsRepo.Balance([], id) == 0 { }
  }

  /** An entry of a non-negative amount whose non-genesis source covers it keeps every non-genesis balance non-negative. */
  lemma EntryKeepsNoOverdraft(t: Tables, reference: string, sourceId: nat, destinationId: nat, amount: int)
    requires NoOverdraft(t) && amount >= 0
    requires forall i | 0 <= i < |t.accounts| && t.accounts[i].id == sourceId && t.accounts[i].accountNumber != GenesisAccountNumber ::
      TransactionsRepo.Balance(t.lines, sourceId) >= amount
    ensures NoOverdraft(Entry(t, reference, sourceId, destinationId, amount))
  {
    var e := Entry(t, reference, sourceId, destinationId, amount);
    forall i | 0 <= i < |e.accounts| && e.accounts[i].accountNumber != GenesisAccountNumber
      ensures TransactionsRepo.Balance(e.lines, e.accounts[i].id) >= 0
    {
      EntryBalance(t, reference, sourceId, destinationId, amount, e.accounts[i].id);
    }
  }

  /** Under the intended rules no request can take a non-genesis account below zero. */
  lemma IntendedRulesKeepBalancesNonNegative(t: Tables, req: Request)
    requires Valid(t) && NoOverdraft(t)
    ensures NoOverdraft(Run(t, req, Intended).1)
  {
    OutcomeUnderValid(t, req, Intended);
    if Run(t, req, Intended).0.Pass? {
      var from := Source(req);
      ExpectedPass(t, req, Intended);
      FoundAccount(t, from);
      var src := GetAccountByAccountNumber(t.accounts, from).value;
      var dst := GetAccountByAccountNumber(t.accounts, req.to).value;
      var amount := req.amount * Scale;
      assert amount >= 0;
      assert from != GenesisAccountNumber ==> TransactionsRepo.Balance(t.lines, src.id) >= amount;
      forall i | 0 <= i < |t.accounts| && t.accounts[i].id == src.id && t.accounts[i].accountNumber != GenesisAccountNumber
        ensures TransactionsRepo.Balance(t.lines, src.id) >= amount
      {
        assert t.accounts[i].id == i + 1;
        assert t.accounts[i] == src;
      }
      EntryKeepsNoOverdraft(t, req.reference, src.id, dst.id, amount);
    }
  }

  /** The seeded store with one more account, "000000001", owned by user 1. */
  function WithAccount(): (t: Tables)
    ensures Valid(t)
    ensures t.accounts == [Account(1, 1, GenesisAccountNumber), Account(2, 1, "000000001")]
  {
    var s := Seeded();
    assert !NumberTaken(s.accounts, "000000001") by {
      assert s.accounts[0].accountNumber[8] != "000000001"[8];
    }
    assert s.users[0].id == 1;
    AddAccountKeepsValid(s, 1, "000000001");
    AddAccount(s, 1, "000000001")
  }

  /** The accounts of `WithAccount`, looked up by number. */
  lemma WithAccountLookups()
    ensures GetAccountByAccountNumber(WithAccount().accounts, GenesisAccountNumber) == Some(Account(1, 1, GenesisAccountNumber))
    ensures GetAccountByAccountNumber(WithAccount().accounts, "000000001") == Some(Account(2, 1, "000000001"))
    ensures GenesisAccountNumber != "000000001"
  {
    var t0 := WithAccount();
    assert GenesisAccountNumber[8] != "000000001"[8];
    assert t0.accounts[0].accountNumber == GenesisAccountNumber;
    assert t0.accounts[1].accountNumber == "000000001";
  }

  /**
   * A deposit into an account with no lines, as written: it passes, appends the entry from the
   * genesis account, and leaves the account holding `amount * 100`.
   */
  lemma DepositIntoEmpty(t: Tables, deposit: Request, genesisId: nat, id: nat)
    requires Valid(t) && deposit.kind == Deposit && deposit.amount != 0
    requires deposit.to != "" && deposit.to != GenesisAccountNumber
    requires !ReferenceTaken(t.transactions, deposit.reference)
    requires GetAccountByAccountNumber(t.accounts, GenesisAccountNumber).Some?
    requires GetAccountByAccountNumber(t.accounts, GenesisAccountNumber).value.id == genesisId
    requires GetAccountByAccountNumber(t.accounts, deposit.to).Some?
    requires GetAccountByAccountNumber(t.accounts, deposit.to).value.id == id
    requires TransactionsRepo.Balance(t.lines, id) == 0
    ensures Run(t, deposit, AsWritten) == (Pass, Entry(t, deposit.reference, genesisId, id, deposit.amount * Scale))
    ensures Valid(Entry(t, deposit.reference, genesisId, id, deposit.amount * Scale))
    ensures TransactionsRepo.Balance(Entry(t, deposit.reference, genesisId, id, deposit.amount * Scale).lines, id)
         == deposit.amount * Scale
  {
    assert Validate(deposit).None? && Source(deposit) == GenesisAccountNumber;
    assert NumberTaken(t.accounts, GenesisAccountNumber) && NumberTaken(t.accounts, deposit.to);
    assert Expected(t, deposit, AsWritten) == Pass;
    ExpectedPassAppends(t, deposit, AsWritten);
    EntryBalance(t, deposit.reference, genesisId, id, deposit.amount * Scale, id);
  }

  /** When every check is expected to pass, the request appends its entry and the store stays valid. */
  lemma ExpectedPassAppends(t: Tables, req: Request, rules: Rules)
    requires Valid(t) && Expected(t, req, rules) == Pass
    ensures NumberTaken(t.accounts, Source(req)) && NumberTaken(t.accounts, req.to)
    ensures var e := Entry(t, req.reference,
        GetAccountByAccountNumber(t.accounts, Source(req)).value.id,
        GetAccountByAccountNumber(t.accounts, req.to).value.id, req.amount * Scale);
      Run(t, req, rules) == (Pass, e) && Valid(e)
  {
    ExpectedPass(t, req, rules);
    OutcomeUnderValid(t, req, rules);
  }

  /** `WithAccount` after a deposit of 1 into "000000001": that account holds 100 cents. */
  lemma FirstDeposit()
    ensures var deposit := Request("", "000000001", Deposit, 1, "d1");
      Run(WithAccount(), deposit, AsWritten) == (Pass, Entry(WithAccount(), "d1", 1, 2, 100))
    ensures Valid(Entry(WithAccount(), "d1", 1, 2, 100))
    ensures TransactionsRepo.Balance(Entry(WithAccount(), "d1", 1, 2, 100).lines, 2) == 100
  {
    EmptyWithAccount();
    DepositIntoEmpty(WithAccount(), Request("", "000000001", Deposit, 1, "d1"), 1, 2);
  }

  /** The facts about `WithAccount` a deposit into "000000001" depends on. */
  lemma EmptyWithAccount()
    ensures var t0 := WithAccount();
      && Valid(t0)
      && GetAccountByAccountNumber(t0.accounts, GenesisAccountNumber) == Some(Account(1, 1, GenesisAccountNumber))
      && GetAccountByAccountNumber(t0.accounts, "000000001") == Some(Account(2, 1, "000000001"))
      && "000000001" != GenesisAccountNumber
      && t0.transactions == [] && TransactionsRepo.Balance(t0.lines, 2) == 0
  {
    WithAccountLookups();
    assert WithAccount().lines == [];
  }

  /** The facts about the store after the first deposit that a withdrawal from "000000001" depends on. */
  lemma AfterFirstDeposit()
    ensures var t1 := Entry(WithAccount(), "d1", 1, 2, 100);
      && Valid(t1)
      && GetAccountByAccountNumber(t1.accounts, GenesisAccountNumber) == Some(Account(1, 1, GenesisAccountNumber))
      && GetAccountByAccountNumber(t1.accounts, "000000001") == Some(Account(2, 1, "000000001"))
      && NumberTaken(t1.accounts, GenesisAccountNumber) && NumberTaken(t1.accounts, "000000001")
      && !ReferenceTaken(t1.transactions, "w1")
      && TransactionsRepo.Balance(t1.lines, 2) == 100
  {
    FirstDeposit();
    EmptyWithAccount();
    FirstEntryFacts(WithAccount(), Entry(WithAccount(), "d1", 1, 2, 100));
  }

  /** The first entry of a store keeps its accounts and holds only the reference "d1". */
  lemma FirstEntryFacts(t0: Tables, t1: Tables)
    requires t1 == Entry(t0, "d1", 1, 2, 100) && t0.transactions == []
    ensures t1.accounts == t0.accounts
    ensures !ReferenceTaken(t1.transactions, "w1")
  {
    assert t1.transactions == [Transaction(1, "d1")];
    assert t1.transactions[0].reference[0] != "w1"[0];
  }

  /**
   * The handler's funds check compares the stored balance with the unscaled amount: a request
   * whose source holds at least `amount` but less than `amount * 100` cents goes through as
   * written and leaves the source below zero, while the intended rule refuses it.
   */
  lemma {:induction false} UnscaledCheckAdmitsOverdraft(t: Tables, req: Request)
    requires Valid(t) && Validate(req).None? && !ReferenceTaken(t.transactions, req.reference)
    requires Source(req) != GenesisAccountNumber && Source(req) != req.to
    requires NumberTaken(t.accounts, Source(req)) && NumberTaken(t.accounts, req.to)
    requires var src := GetAccountByAccountNumber(t.accounts, Source(req)).value.id;
      req.amount <= TransactionsRepo.Balance(t.lines, src) < req.amount * Scale
    ensures var src := GetAccountByAccountNumber(t.accounts, Source(req)).value.id;
      && Run(t, req, AsWritten).0 == Pass
      && TransactionsRepo.Balance(Run(t, req, AsWritten).1.lines, src) == TransactionsRepo.Balance(t.lines, src) - req.amount * Scale < 0
      && Run(t, req, Intended) == (Fail(InsufficientBalance), t)
  {
    OutcomeUnderValid(t, req, AsWritten);
    OutcomeUnderValid(t, req, Intended);
    TransferMovesBalance(t, req, AsWritten);
  }

  /**
   * As written, a transfer of 2 out of an account holding 100 cents passes the funds check
   * (100 >= 2) and debits 200 cents, leaving -100; the intended rule refuses it.
   */
  lemma UnscaledFundsCheckOverdraws()
    ensures var t1 := Entry(WithAccount(), "d1", 1, 2, 100);
      var withdraw := Request("000000001", GenesisAccountNumber, Transfer, 2, "w1");
      && Run(WithAccount(), Request("", "000000001", Deposit, 1, "d1"), AsWritten) == (Pass, t1)
      && TransactionsRepo.Balance(t1.lines, 2) == 100
      && Run(t1, withdraw, AsWritten).0 == Pass
      && TransactionsRepo.Balance(Run(t1, withdraw, AsWritten).1.lines, 2) == -100
      && Run(t1, withdraw, Intended).0 == Fail(InsufficientBalance)
  {
    FirstDeposit();
    AfterFirstDeposit();
    var t1 := Entry(WithAccount(), "d1", 1, 2, 100);
    var withdraw := Request("000000001", GenesisAccountNumber, Transfer, 2, "w1");
    UnscaledCheckAdmitsOverdraft(t1, withdraw);
  }

  /** As written, a deposit of -1 passes validation and takes an empty account to -100; the intended rules refuse it. */
  lemma NegativeDepositOverdraws()
    ensures var t0 := WithAccount();
      var deposit := Request("", "000000001", Deposit, -1, "n1");
      && Run(t0, deposit, AsWritten) == (Pass, Entry(t0, "n1", 1, 2, -100))
      && TransactionsRepo.Balance(Entry(t0, "n1", 1, 2, -100).lines, 2) == -100
      && Run(t0, deposit, Intended).0 == Fail(Invalid(AmountRequired))
  {
    var t0 := WithAccount();
    var deposit := Request("", "000000001", Deposit, -1, "n1");
    NegativeAmountRefused(t0, deposit);
    EmptyWithAccount();
    DepositIntoEmpty(t0, deposit, 1, 2);
  }

  /** Under the intended rules a valid request with a negative amount is refused and changes nothing. */
  lemma NegativeAmountRefused(t: Tables, req: Request)
    requires Validate(req).None? && req.amount < 0
    ensures Run(t, req, Intended) == (Fail(Invalid(AmountRequired)), t)
  {
  }
}
