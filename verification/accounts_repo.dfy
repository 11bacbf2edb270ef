/**
 * The accounts repository: looking accounts up by a list of account numbers (through an
 * `IN ($1,...,$n)` query) or by owner, and inserting an account.
 */
module AccountsRepo {
  import opened Wrappers
  import opened Decimal
  import opened Ledger

  // ---------------------------------------------------------------------------
  // The query text

  /** The i-th (0-based) positional parameter: "$" and the decimal of i + 1. */
  function Placeholder(i: nat): string {
    "$" + NatToString(i + 1)
  }

  /** strings.Join(parts, ","). */
  function Join(parts: seq<string>): string {
    if |parts| == 0 then ""
    else if |parts| == 1 then parts[0]
    else parts[0] + "," + Join(parts[1..])
  }

  /** The position of the first comma of a string that has one. */
  function FirstComma(s: string): (k: nat)
    requires ',' in s
    ensures k < |s| && s[k] == ',' && ',' !in s[..k]
  {
    if s[0] == ',' then 0
    else
      var k := FirstComma(s[1..]);
      assert s[..k + 1] == [s[0]] + s[1..][..k];
      k + 1
  }

  /** strings.Split(s, ","): the pieces between commas. */
  function Split(s: string): (parts: seq<string>)
    ensures |parts| >= 1
    decreases |s|
  {
    if ',' in s then
      var k := FirstComma(s);
      [s[..k]] + Split(s[k + 1..])
    else [s]
  }

  /** Each placeholder is "$" followed by a numeral that reads back as its 1-based position. */
  lemma PlaceholderNumbering(i: nat)
    ensures |Placeholder(i)| >= 2 && Placeholder(i)[0] == '$'
    ensures AllDigits(Placeholder(i)[1..]) && Value(Placeholder(i)[1..]) == i + 1
  {
    assert Placeholder(i)[1..] == NatToString(i + 1);
    NatToStringValue(i + 1);
  }

  lemma {:induction false} FirstCommaAfter(p: string, rest: string)
    requires ',' !in p
    ensures ',' in p + "," + rest && FirstComma(p + "," + rest) == |p|
  {
    var s := p + "," + rest;
    assert s[|p|] == ',';
    if p != [] {
      assert s[1..] == p[1..] + "," + rest;
      FirstCommaAfter(p[1..], rest);
    }
  }

  /** Splitting the joined list at its commas gives the list back, when no entry holds a comma. */
  lemma {:induction false} SplitJoin(parts: seq<string>)
    requires |parts| >= 1
    requires forall i | 0 <= i < |parts| :: ',' !in parts[i]
    ensures Split(Join(parts)) == parts
  {
    if |parts| > 1 {
      var p, rest := parts[0], Join(parts[1..]);
      var s := p + "," + rest;
      assert Join(parts) == s;
      assert ',' !in p;
      FirstCommaAfter(p, rest);
      assert s[..|p|] == p;
      assert s[|p| + 1..] == rest;
      assert Split(s) == [p] + Split(rest);
      SplitJoin(parts[1..]);
      assert parts == [p] + parts[1..];
    }
  }

  lemma PlaceholderHasNoComma(i: nat)
    ensures ',' !in Placeholder(i)
  {
    var p := Placeholder(i);
    forall k | 0 <= k < |p| ensures p[k] != ',' {
      if k > 0 {
        assert p[k] == NatToString(i + 1)[k - 1];
      }
    }
  }

  /**
   * Build the positional parameters for n account numbers into a fresh array: entry i is
   * "$<i+1>", and joined with commas they form a list of exactly n entries.
   */
  method BuildPlaceholders(n: nat) returns (placeholders: array<string>)
    requires n >= 1
    ensures fresh(placeholders) && placeholders.Length == n
    ensures forall i | 0 <= i < n :: placeholders[i] == Placeholder(i)
    ensures Split(Join(placeholders[..])) == placeholders[..]
  {
    placeholders := new string[n];
    for i := 0 to n
      invariant forall k | 0 <= k < i :: placeholders[k] == Placeholder(k)
    {
      placeholders[i] := "$" + NatToString(i + 1);
    }
    forall k | 0 <= k < n ensures ',' !in placeholders[..][k] {
      PlaceholderHasNoComma(k);
    }
    SplitJoin(placeholders[..]);
  }

  // ---------------------------------------------------------------------------
  // What the queries select

  /** The rows of `... where account_number in (numbers)`, in table order. */
  function SelectByNumbers(accounts: seq<Account>, numbers: seq<string>): (rows: seq<Account>)
    ensures forall a | a in rows :: a in accounts && a.accountNumber in numbers
    ensures forall i | 0 <= i < |accounts| && accounts[i].accountNumber in numbers :: accounts[i] in rows
  {
    if accounts == [] then []
    else
      var prefix, last := accounts[..|accounts| - 1], accounts[|accounts| - 1];
      assert accounts == prefix + [last];
      var rest := SelectByNumbers(prefix, numbers);
      if last.accountNumber in numbers then rest + [last] else rest
  }

  /** The rows of `... where user_id = userId`, in table order. */
  function AccountsOfUser(accounts: seq<Account>, userId: int): (rows: seq<Account>)
    ensures forall a | a in rows :: a in accounts && a.userId == userId
    ensures forall i | 0 <= i < |accounts| && accounts[i].userId == userId :: accounts[i] in rows
  {
    if accounts == [] then []
    else
      var prefix, last := accounts[..|accounts| - 1], accounts[|accounts| - 1];
      assert accounts == prefix + [last];
      var rest := AccountsOfUser(prefix, userId);
      if last.userId == userId then rest + [last] else rest
  }

  predicate IdsIncreasing(rows: seq<Account>) {
    forall i, j | 0 <= i < j < |rows| :: rows[i].id < rows[j].id
  }

  /** Rows come back in id order, so no stored account is returned twice. */
  lemma {:induction false} SelectedOnce(accounts: seq<Account>, userCount: nat, numbers: seq<string>)
    requires AccountsValid(accounts, userCount)
    ensures IdsIncreasing(SelectByNumbers(accounts, numbers))
  {
    if accounts != [] {
      var prefix := accounts[..|accounts| - 1];
      SelectedOnce(prefix, userCount, numbers);
      var rest := SelectByNumbers(prefix, numbers);
      forall a | a in rest ensures a.id < |accounts| {
        var k :| 0 <= k < |prefix| && prefix[k] == a;
      }
      var last := accounts[|accounts| - 1];
      var rows := SelectByNumbers(accounts, numbers);
      assert rows == (if last.accountNumber in numbers then rest + [last] else rest);
      forall i, j | 0 <= i < j < |rows| ensures rows[i].id < rows[j].id {
        assert rows[i] == rest[i];
        if j == |rest| {
          assert rest[i] in rest;
          assert rows[j] == last;
          assert last.id == |accounts|;
        } else {
          assert rows[j] == rest[j];
        }
      }
    }
  }

  /**
   * Looking up two numbers in a store with unique account numbers returns one row per number
   * that exists, counting a repeated number once.
   */
  lemma {:induction false} SelectPairCount(accounts: seq<Account>, userCount: nat, x: string, y: string)
    requires AccountsValid(accounts, userCount)
    ensures |SelectByNumbers(accounts, [x, y])|
         == (if NumberTaken(accounts, x) then 1 else 0) + (if y != x && NumberTaken(accounts, y) then 1 else 0)
  {
    if accounts != [] {
      var prefix, last := accounts[..|accounts| - 1], accounts[|accounts| - 1];
      SelectPairCount(prefix, userCount, x, y);
      assert forall n :: NumberTaken(accounts, n) <==> NumberTaken(prefix, n) || last.accountNumber == n by {
        forall n | NumberTaken(accounts, n) ensures NumberTaken(prefix, n) || last.accountNumber == n {
          var k :| 0 <= k < |accounts| && accounts[k].accountNumber == n;
          if k < |prefix| { assert prefix[k] == accounts[k]; }
        }
        forall n | NumberTaken(prefix, n) ensures NumberTaken(accounts, n) {
          var k :| 0 <= k < |prefix| && prefix[k].accountNumber == n;
          assert accounts[k] == prefix[k];
        }
      }
      forall k | 0 <= k < |prefix| ensures prefix[k].accountNumber != last.accountNumber {
        assert prefix[k] == accounts[k];
      }
    }
  }

  /** Resolving {x, y} yields exactly two rows iff x and y differ and both exist; [x, x] yields at most one. */
  lemma ResolvesTwo(accounts: seq<Account>, userCount: nat, x: string, y: string)
    requires AccountsValid(accounts, userCount)
    ensures |SelectByNumbers(accounts, [x, y])| == 2 <==> x != y && NumberTaken(accounts, x) && NumberTaken(accounts, y)
    ensures |SelectByNumbers(accounts, [x, x])| <= 1
  {
    SelectPairCount(accounts, userCount, x, y);
    SelectPairCount(accounts, userCount, x, x);
  }

  // ---------------------------------------------------------------------------
  // Operations through a unit of work

  /**
   * GetAccounts: the accounts whose numbers are among `numbers`; an empty list is an error.
   * Reads the unit of work and changes nothing.
   */
  method GetAccounts(tx: Tx, numbers: seq<string>) returns (r: Result<seq<Account>, StoreError>)
    ensures numbers == [] ==> r == Failure(NoAccountNumbers)
    ensures numbers != [] ==> r == Success(SelectByNumbers(tx.tables.accounts, numbers))
  {
    if |numbers| == 0 {
      return Failure(NoAccountNumbers);
    }
    var placeholders := BuildPlaceholders(|numbers|);
    var args := Arguments(numbers);
    // The query text is not interpreted: BuildPlaceholders' contract (n placeholders that split
    // back into n entries, for n arguments) stands in for it, and the scan gives its meaning.
    var rows := ScanByNumbers(tx.tables.accounts, args[..]);
    return Success(rows);
  }

  /** The query's arguments: a fresh array holding the numbers in order. */
  method Arguments(numbers: seq<string>) returns (args: array<string>)
    ensures fresh(args) && args[..] == numbers
  {
    args := new string[|numbers|];
    for i := 0 to |numbers|
      invariant forall k | 0 <= k < i :: args[k] == numbers[k]
    {
      args[i] := numbers[i];
    }
  }

  /** Running the query: scan the table, keeping the rows whose number is among the arguments. */
  method ScanByNumbers(accounts: seq<Account>, args: seq<string>) returns (out: seq<Account>)
    ensures out == SelectByNumbers(accounts, args)
  {
    out := [];
    var i := 0;
    while i < |accounts|
      invariant 0 <= i <= |accounts|
      invariant out == SelectByNumbers(accounts[..i], args)
    {
      assert accounts[..i + 1][..i] == accounts[..i];
      if accounts[i].accountNumber in args {
        out := out + [accounts[i]];
      }
      i := i + 1;
    }
    assert accounts[..i] == accounts;
  }

  /** GetByUserID: the accounts owned by `userId`. Reads the unit of work and changes nothing. */
  method GetByUserID(tx: Tx, userId: int) returns (rows: seq<Account>)
    ensures rows == AccountsOfUser(tx.tables.accounts, userId)
  {
    var accounts := tx.tables.accounts;
    rows := [];
    var i := 0;
    while i < |accounts|
      invariant 0 <= i <= |accounts|
      invariant rows == AccountsOfUser(accounts[..i], userId)
    {
      assert accounts[..i + 1][..i] == accounts[..i];
      if accounts[i].userId == userId {
        rows := rows + [accounts[i]];
      }
      i := i + 1;
    }
    assert accounts[..i] == accounts;
  }

  /** Create: insert an account; its number must be free and its user must exist. */
  method Create(tx: Tx, userId: int, number: string) returns (r: Result<Account, StoreError>)
    modifies tx`tables
    ensures AccountInsertError(old(tx.tables), userId, number).Some? ==>
      r == Failure(AccountInsertError(old(tx.tables), userId, number).value) && tx.tables == old(tx.tables)
    ensures AccountInsertError(old(tx.tables), userId, number).None? ==>
      r == Success(Account(|old(tx.tables).accounts| + 1, userId, number))
      && tx.tables == AddAccount(old(tx.tables), userId, number)
  {
    var err := AccountInsertError(tx.tables, userId, number);
    if err.Some? {
      return Failure(err.value);
    }
    r := Success(Account(|tx.tables.accounts| + 1, userId, number));
    tx.tables := AddAccount(tx.tables, userId, number);
  }
}
