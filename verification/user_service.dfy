/**
 * The user service: the create-user request's email check (Go's strings.TrimSpace with
 * unicode.IsSpace), the lenient integer parse behind the user-id path parameter
 * (strconv.Atoi with its error ignored), and user creation with unique emails.
 */
module UserService {
  import opened Wrappers
  import opened Decimal
  import opened Ledger
  import Http
  import UsersRepo

  // ---------------------------------------------------------------------------
  // White space and trimming

  /** unicode.IsSpace: the Latin-1 spaces and the other code points with the White_Space property. */
  predicate IsSpace(c: char) {
    var u := c as int;
    || 0x09 <= u <= 0x0D || u == 0x20 || u == 0x85 || u == 0xA0
    || u == 0x1680 || 0x2000 <= u <= 0x200A || u == 0x2028 || u == 0x2029
    || u == 0x202F || u == 0x205F || u == 0x3000
  }

  /** The string without its leading white space. */
  function TrimLeft(s: string): (r: string)
    ensures |r| <= |s| && r == s[|s| - |r|..]
    ensures forall i | 0 <= i < |s| - |r| :: IsSpace(s[i])
    ensures r != [] ==> !IsSpace(r[0])
  {
    if s != [] && IsSpace(s[0]) then
      var r := TrimLeft(s[1..]);
      assert s[1..][|s| - 1 - |r|..] == s[|s| - |r|..];
      assert forall i | 1 <= i < |s| - |r| :: s[i] == s[1..][i - 1];
      r
    else s
  }

  /** The string without its trailing white space. */
  function TrimRight(s: string): (r: string)
    ensures |r| <= |s| && r == s[..|r|]
    ensures forall i | |r| <= i < |s| :: IsSpace(s[i])
    ensures r != [] ==> !IsSpace(r[|r| - 1])
  {
    if s != [] && IsSpace(s[|s| - 1]) then
      var r := TrimRight(s[..|s| - 1]);
      assert s[..|s| - 1][..|r|] == s[..|r|];
      assert forall i | |r| <= i < |s| - 1 :: s[i] == s[..|s| - 1][i];
      r
    else s
  }

  /** strings.TrimSpace. */
  function TrimSpace(s: string): (r: string)
    ensures r != [] ==> !IsSpace(r[0]) && !IsSpace(r[|r| - 1])
  {
    TrimRight(TrimLeft(s))
  }

  /** Trimming leaves nothing exactly when every character is white space. */
  lemma TrimSpaceEmpty(s: string)
    ensures TrimSpace(s) == [] <==> forall i | 0 <= i < |s| :: IsSpace(s[i])
  {
    var l := TrimLeft(s);
    if TrimSpace(s) == [] {
      assert l == [];
    } else {
      var r := TrimSpace(s);
      assert r[0] == l[0] == s[|s| - |l|];
    }
  }

  // ---------------------------------------------------------------------------
  // The create-user request

  /** The request's only check: the email must not be empty or white space alone. */
  predicate ValidEmail(email: string) {
    TrimSpace(email) != ""
  }

  /** An email is accepted exactly when it has a character that is not white space. */
  lemma ValidEmailIff(email: string)
    ensures ValidEmail(email) <==> exists i | 0 <= i < |email| :: !IsSpace(email[i])
  {
    TrimSpaceEmpty(email);
  }

  // ---------------------------------------------------------------------------
  // stringToInt

  const MaxInt64: int := 0x7FFF_FFFF_FFFF_FFFF
  const MinInt64: int := -0x8000_0000_0000_0000

  /** The digits after an optional sign. */
  function Unsigned(s: string): string {
    if |s| > 0 && (s[0] == '+' || s[0] == '-') then s[1..] else s
  }

  /** What strconv.Atoi accepts in base 10: an optional sign followed by at least one digit. */
  predicate WellFormed(s: string) {
    |Unsigned(s)| >= 1 && AllDigits(Unsigned(s))
  }

  /** A value out of the 64-bit range is replaced by the nearest bound, as ParseInt reports it. */
  function Clamp(v: int): int {
    if v > MaxInt64 then MaxInt64 else if v < MinInt64 then MinInt64 else v
  }

  const MaxUint64: int := 0xFFFF_FFFF_FFFF_FFFF

  /** The longest prefix of `s` made of decimal digits. */
  function DigitRun(s: string): (d: string)
    ensures |d| <= |s| && d == s[..|d|] && AllDigits(d)
    ensures |d| < |s| ==> !IsDigit(s[|d|])
  {
    if s != [] && IsDigit(s[0]) then
      var d := DigitRun(s[1..]);
      assert s[..|d| + 1] == [s[0]] + s[1..][..|d|];
      [s[0]] + d
    else []
  }

  /**
   * ParseUint reads the digits after the sign one at a time and gives up with a range error at
   * the first digit that takes the value past 2^64 - 1, before it looks at any later character.
   */
  predicate Overflows(s: string) {
    Value(DigitRun(Unsigned(s))) > MaxUint64
  }

  /**
   * stringToInt: strconv.Atoi with its error dropped. A digit run past the unsigned 64-bit range
   * gives the bound on its sign's side whatever follows it; otherwise a malformed string gives 0
   * and a well-formed one its value, held to the 64-bit range. (Atoi's fast path for strings
   * shorter than 19 bytes agrees: such a string cannot overflow, see `ShortStringsDoNotOverflow`.)
   */
  function StringToInt(s: string): (n: int)
    ensures MinInt64 <= n <= MaxInt64
    ensures !WellFormed(s) && !Overflows(s) ==> n == 0
    ensures WellFormed(s) && MinInt64 <= Signed(s) <= MaxInt64 ==> n == Signed(s)
    ensures WellFormed(s) && Signed(s) > MaxInt64 ==> n == MaxInt64
    ensures WellFormed(s) && Signed(s) < MinInt64 ==> n == MinInt64
  {
    var negative := |s| > 0 && s[0] == '-';
    if Overflows(s) then
      (if WellFormed(s) then DigitRunOfDigits(Unsigned(s)); (if negative then MinInt64 else MaxInt64)
       else (if negative then MinInt64 else MaxInt64))
    else if !WellFormed(s) then 0
    else
      var magnitude: int := Value(Unsigned(s));
      Clamp(if negative then -magnitude else magnitude)
  }

  /** The integer a well-formed numeral denotes: its digits' value, negated after a minus sign. */
  function Signed(s: string): int
    requires WellFormed(s)
  {
    var magnitude: int := Value(Unsigned(s));
    if s[0] == '-' then -magnitude else magnitude
  }

  /** Two well-formed numerals that denote the same integer parse to the same int. */
  lemma SameSignedSameInt(a: string, b: string)
    requires WellFormed(a) && WellFormed(b) && Signed(a) == Signed(b)
    ensures StringToInt(a) == StringToInt(b)
  {
  }

  /** A plus sign and leading zeros do not change what a numeral parses to. */
  lemma SignAndLeadingZerosIgnored(d: string)
    requires |d| >= 1 && AllDigits(d)
    ensures StringToInt("+" + d) == StringToInt(d)
    ensures StringToInt("0" + d) == StringToInt(d)
    ensures StringToInt("-0" + d) == StringToInt("-" + d)
  {
    ValueLeadingZero(d);
    var plus, zero, minus, minusZero := "+" + d, "0" + d, "-" + d, "-0" + d;
    assert Unsigned(plus) == d && Unsigned(minus) == d;
    assert Unsigned(zero) == zero && Unsigned(minusZero) == zero;
    assert Unsigned(d) == d;
    SameSignedSameInt(plus, d);
    SameSignedSameInt(zero, d);
    SameSignedSameInt(minusZero, minus);
  }

  /** A string shorter than 19 characters never reaches the range error. */
  lemma ShortStringsDoNotOverflow(s: string)
    requires |s| < 19
    ensures !Overflows(s)
  {
    var d := DigitRun(Unsigned(s));
    ValueBelowPow10(d);
    PowMonotone(|d|, 18);
    Pow10Add(9, 9);
    assert Pow10(9) == 1_000_000_000;
  }

  /** A digit run that overflows gives the bound of its sign, even when a non-digit follows it. */
  lemma StringToIntOverflowBeforeJunk(s: string)
    requires Overflows(s)
    ensures |s| > 0
    ensures StringToInt(s) == (if s[0] == '-' then MinInt64 else MaxInt64)
  {
    assert DigitRun(Unsigned(s)) != [];
  }

  /** strconv.Itoa: the decimal numeral of an integer, with a minus sign when it is negative. */
  function IntToString(n: int): (s: string)
    ensures |s| >= 1
  {
    if n < 0 then "-" + NatToString(-n) else NatToString(n)
  }

  /** Parsing the numeral of any 64-bit integer gives the integer back. */
  lemma StringToIntRoundTrip(n: int)
    requires MinInt64 <= n <= MaxInt64
    ensures WellFormed(IntToString(n))
    ensures StringToInt(IntToString(n)) == n
  {
    var s := IntToString(n);
    NatToStringValue(if n < 0 then -n else n);
    DigitRunOfDigits(NatToString(if n < 0 then -n else n));
    if n < 0 {
      NatToStringValue(-n);
      assert Unsigned(s) == NatToString(-n);
    } else {
      NatToStringValue(n);
      assert IsDigit(NatToString(n)[0]);
      assert Unsigned(s) == NatToString(n);
    }
  }

  /** A numeral beyond the 64-bit range parses to the bound on its side. */
  lemma StringToIntSaturates(s: string)
    requires WellFormed(s) && Value(Unsigned(s)) > MaxInt64
    ensures StringToInt(s) == (if s[0] == '-' then MinInt64 else MaxInt64)
  {
    DigitRunOfDigits(Unsigned(s));
  }

  /** On a string of digits the digit run is the whole string. */
  lemma {:induction false} DigitRunOfDigits(s: string)
    requires AllDigits(s)
    ensures DigitRun(s) == s
  {
    if s != [] {
      DigitRunOfDigits(s[1..]);
    }
  }

  // ---------------------------------------------------------------------------
  // createUser

  /** Why a create-user request was turned down. */
  datatype UserError =
    | Invalid                      // the email is empty or white space
    | EmailInUse                   // "email already taken"

  /** Both refusals, an invalid email and a taken one, are answered 400. */
  function StatusOf(e: UserError): (s: Http.Status)
    ensures s == Http.BadRequest
  {
    match e
    case Invalid => Http.BadRequest
    case EmailInUse => Http.BadRequest
  }

  /** createUser against a committed store: the outcome and the store afterwards. The email is stored as given, untrimmed. */
  function Register(t: Tables, email: string): (Outcome<UserError>, Tables) {
    if !ValidEmail(email) then (Fail(Invalid), t)
    else if EmailTaken(t.users, email) then (Fail(EmailInUse), t)
    else (Pass, AddUser(t, email))
  }

  /** createUser: validate, insert the user in a unit of work on `db`, and commit. */
  method CreateUser(db: Database, email: string) returns (r: Outcome<UserError>)
    modifies db
    ensures (r, db.tables) == Register(old(db.tables), email)
  {
    if !ValidEmail(email) {
      return Fail(Invalid);
    }
    var tx := new Tx(db);
    var created := UsersRepo.Create(tx, email);
    if created.Fail? {
      // the only insert the store refuses is a duplicate email
      return Fail(EmailInUse);
    }
    tx.Commit();
    return Pass;
  }

  /**
   * Against a valid store: a request succeeds exactly when the email has a non-space character
   * and is not in use; a success adds one user with the email as given and changes nothing else;
   * a failure changes nothing; the store stays valid.
   */
  lemma RegisterOutcome(t: Tables, email: string)
    requires Valid(t)
    ensures var (r, after) := Register(t, email);
      && (r.Pass? <==> (exists i | 0 <= i < |email| :: !IsSpace(email[i])) && !EmailTaken(t.users, email))
      && (r == Fail(EmailInUse) <==> ValidEmail(email) && EmailTaken(t.users, email))
      && (r.Pass? ==> after.users == t.users + [User(|t.users| + 1, email)]
                      && after.accounts == t.accounts && after.transactions == t.transactions && after.lines == t.lines)
      && (r.Fail? ==> after == t)
      && Valid(after)
  {
    ValidEmailIff(email);
    var (r, after) := Register(t, email);
    if !ValidEmail(email) {
      assert r == Fail(Invalid) && after == t;
    } else if EmailTaken(t.users, email) {
      assert r == Fail(EmailInUse) && after == t;
    } else {
      AddUserKeepsValid(t, email);
      assert r == Pass && after == AddUser(t, email);
    }
  }
}
