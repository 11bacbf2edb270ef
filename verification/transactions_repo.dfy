/**
 * The transactions repository: inserting transactions and their lines, and deriving an
 * account's balance by replaying the lines recorded against it.
 */
module TransactionsRepo {
  import opened Wrappers
  import opened Ledger

  // ---------------------------------------------------------------------------
  // The balance, as a function of the lines table

  /** What one line adds to its account's balance: a credit adds, a debit subtracts, any other purpose nothing. */
  function Effect(line: TransactionLine): int {
    (if line.purpose == CREDIT then line.amount else 0) - (if line.purpose == DEBIT then line.amount else 0)
  }

  /** The rows of `select ... from transaction_lines where account_id = a`, in table order. */
  function LinesOf(lines: seq<TransactionLine>, accountId: nat): seq<TransactionLine> {
    if lines == [] then []
    else
      var rest := LinesOf(lines[..|lines| - 1], accountId);
      if lines[|lines| - 1].accountId == accountId then rest + [lines[|lines| - 1]] else rest
  }

  /** The running total over a list of lines. */
  function Total(lines: seq<TransactionLine>): int {
    if lines == [] then 0 else Total(lines[..|lines| - 1]) + Effect(lines[|lines| - 1])
  }

  /** The balance of an account: the total over its lines. */
  function Balance(lines: seq<TransactionLine>, accountId: nat): int {
    Total(LinesOf(lines, accountId))
  }

  /** Independent reference: the sum of the amounts of the lines of one account with one purpose. */
  function SumFor(lines: seq<TransactionLine>, accountId: nat, purpose: string): int {
    if lines == [] then 0
    else
      var line := lines[0];
      (if line.accountId == accountId && line.purpose == purpose then line.amount else 0)
        + SumFor(lines[1..], accountId, purpose)
  }

  lemma SumForAppend(lines: seq<TransactionLine>, line: TransactionLine, accountId: nat, purpose: string)
    ensures SumFor(lines + [line], accountId, purpose)
         == SumFor(lines, accountId, purpose) + (if line.accountId == accountId && line.purpose == purpose then line.amount else 0)
  {
    if lines != [] {
      assert (lines + [line])[1..] == lines[1..] + [line];
      SumForAppend(lines[1..], line, accountId, purpose);
    }
  }

  /** Appending a line changes the balance of its own account by the line's effect, and no other balance. */
  lemma {:induction false} BalanceAppend(lines: seq<TransactionLine>, line: TransactionLine, accountId: nat)
    ensures Balance(lines + [line], accountId)
         == Balance(lines, accountId) + (if line.accountId == accountId then Effect(line) else 0)
  {
    assert (lines + [line])[..|lines|] == lines;
    var rest := LinesOf(lines, accountId);
    if line.accountId == accountId {
      assert (rest + [line])[..|rest|] == rest;
    }
  }

  /** The balance is the sum of the account's credits minus the sum of its debits. */
  lemma {:induction false} BalanceIsCreditsMinusDebits(lines: seq<TransactionLine>, accountId: nat)
    ensures Balance(lines, accountId) == SumFor(lines, accountId, CREDIT) - SumFor(lines, accountId, DEBIT)
  {
    if lines != [] {
      var prefix, last := lines[..|lines| - 1], lines[|lines| - 1];
      assert lines == prefix + [last];
      BalanceIsCreditsMinusDebits(prefix, accountId);
      BalanceAppend(prefix, last, accountId);
      SumForAppend(prefix, last, accountId, CREDIT);
      SumForAppend(prefix, last, accountId, DEBIT);
    }
  }

  /** An account with no lines has balance 0. */
  lemma {:induction false} BalanceWithoutLines(lines: seq<TransactionLine>, accountId: nat)
    requires forall i | 0 <= i < |lines| :: lines[i].accountId != accountId
    ensures Balance(lines, accountId) == 0
  {
    if lines != [] {
      var prefix := lines[..|lines| - 1];
      assert lines == prefix + [lines[|lines| - 1]];
      BalanceWithoutLines(prefix, accountId);
      BalanceAppend(prefix, lines[|lines| - 1], accountId);
    }
  }

  /** A line whose purpose is neither credit nor debit leaves every balance as it was. */
  lemma OtherPurposeIsInert(lines: seq<TransactionLine>, line: TransactionLine, accountId: nat)
    requires line.purpose != CREDIT && line.purpose != DEBIT
    ensures Balance(lines + [line], accountId) == Balance(lines, accountId)
  {
    BalanceAppend(lines, line, accountId);
  }

  // ---------------------------------------------------------------------------
  // Operations through a unit of work

  /**
   * GetBalance: fetch the account's lines, then fold them into a total.
   * Reads the unit of work and changes nothing.
   */
  method GetBalance(tx: Tx, accountId: nat) returns (balance: int)
    ensures balance == Balance(tx.tables.lines, accountId)
    ensures balance == SumFor(tx.tables.lines, accountId, CREDIT) - SumFor(tx.tables.lines, accountId, DEBIT)
  {
    var lines := tx.tables.lines;
    var out: seq<TransactionLine> := [];
    var i := 0;
    while i < |lines|
      invariant 0 <= i <= |lines|
      invariant out == LinesOf(lines[..i], accountId)
    {
      assert lines[..i + 1][..i] == lines[..i];
      if lines[i].accountId == accountId {
        out := out + [lines[i]];
      }
      i := i + 1;
    }
    assert lines[..i] == lines;

    var total := 0;
    var j := 0;
    while j < |out|
      invariant 0 <= j <= |out|
      invariant total == Total(out[..j])
    {
      assert out[..j + 1][..j] == out[..j];
      if out[j].purpose == CREDIT {
        total := total + out[j].amount;
      }
      if out[j].purpose == DEBIT {
        total := total - out[j].amount;
      }
      j := j + 1;
    }
    assert out[..j] == out;
    balance := total;
    BalanceIsCreditsMinusDebits(lines, accountId);
  }

  /** Create: insert a transaction with the given reference; the reference is unique. */
  method Create(tx: Tx, reference: string) returns (r: Result<nat, StoreError>)
    modifies tx`tables
    ensures ReferenceTaken(old(tx.tables).transactions, reference) ==>
      r == Failure(DuplicateReference) && tx.tables == old(tx.tables)
    ensures !ReferenceTaken(old(tx.tables).transactions, reference) ==>
      r == Success(|old(tx.tables).transactions| + 1) && tx.tables == AddTransaction(old(tx.tables), reference)
  {
    if ReferenceTaken(tx.tables.transactions, reference) {
      return Failure(DuplicateReference);
    }
    r := Success(|tx.tables.transactions| + 1);
    tx.tables := AddTransaction(tx.tables, reference);
  }

  /** CreateTransactionLine: insert one line; at most one line per (transaction, account) pair. */
  method CreateTransactionLine(tx: Tx, transactionId: nat, accountId: nat, amount: int, purpose: string)
    returns (r: Result<nat, StoreError>)
    modifies tx`tables
    ensures LineInsertError(old(tx.tables), transactionId, accountId).Some? ==>
      r == Failure(LineInsertError(old(tx.tables), transactionId, accountId).value) && tx.tables == old(tx.tables)
    ensures LineInsertError(old(tx.tables), transactionId, accountId).None? ==>
      r == Success(|old(tx.tables).lines| + 1)
      && tx.tables == AddLine(old(tx.tables), transactionId, accountId, amount, purpose)
  {
    var err := LineInsertError(tx.tables, transactionId, accountId);
    if err.Some? {
      return Failure(err.value);
    }
    r := Success(|tx.tables.lines| + 1);
    tx.tables := AddLine(tx.tables, transactionId, accountId, amount, purpose);
  }
}
