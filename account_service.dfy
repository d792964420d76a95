/** `AccountService`: opening a further account next to the main one, the
    fresh-number generator, and the account lookups. The random draws of
    `RandomStringUtils.randomAlphanumeric(6)` enter the model as the sequence
    `draws`, in the order the loop would take them. */
module AccountService {
  import opened Entities
  import opened Repositories

  const InvestmentAccountCreated: string := "Investment Account Created"

  const MainAccountRequiredError: Error := InvalidAccount("Main account is required to create a new account")

  function UserNotFoundFor(email: string): Error
  {
    IllegalArgument("User not found for the given identifier: " + email)
  }

  /** `validateUser`. */
  function ValidateUser(users: map<string, User>, email: string): (r: Result<User>)
    ensures r.Ok? <==> email in users
    ensures r.Ok? ==> r.value == users[email]
    ensures r.Err? ==> r.error == UserNotFoundFor(email)
  {
    if email in users then Ok(users[email]) else Err(UserNotFoundFor(email))
  }

  /** `getMainAccountByEmail`: every registered user has a stored main account. */
  function GetMainAccountByEmail(db: Store, email: string): (r: Result<Account>)
    reads db
    requires db.Valid()
    ensures r.Ok? <==> email in db.users
    ensures r.Ok? ==> r.value in db.accounts.Values && db.users[email].mainAccount == Some(r.value.number)
    ensures r.Err? ==> r.error == UserNotFoundFor(email)
  {
    match ValidateUser(db.users, email)
    case Err(e) => Err(e)
    case Ok(user) => Ok(db.accounts[user.mainAccount.value])
  }

  /** The decimal text of a natural number. */
  function NatString(n: nat): (r: string)
    ensures |r| > 0
    decreases n
  {
    var digit := ["0", "1", "2", "3", "4", "5", "6", "7", "8", "9"][n % 10];
    if n < 10 then digit else NatString(n / 10) + digit
  }

  /** Java's decimal text of an `int`. */
  function IntString(n: int): string
  {
    if n < 0 then "-" + NatString(-n) else NatString(n)
  }

  /** What `findByUserId` returns for the user `email`: each stored account
      the user owns, once, in an order the repository chooses. */
  ghost predicate OwnedAccounts(accounts: map<string, Account>, email: string, owned: seq<Account>)
  {
    && (forall a :: a in owned <==> a in accounts.Values && a.owner == email)
    && (forall i, j :: 0 <= i < j < |owned| ==> owned[i].number != owned[j].number)
  }

  /** `getAccountByIndex`, given the user's accounts `owned` in the order
      `findByUserId` returns them. */
  function GetAccountByIndex(users: map<string, User>, accounts: map<string, Account>, owned: seq<Account>,
                             email: string, index: int): (r: Result<Account>)
    requires OwnedAccounts(accounts, email, owned)
    ensures email !in users ==> r == Err(UserNotFoundFor(email))
    ensures email in users ==> (r.Ok? <==> 0 <= index < |owned|)
    ensures r.Ok? ==> 0 <= index < |owned| && r.value == owned[index]
    ensures r.Ok? ==> r.value in accounts.Values && r.value.owner == email
    ensures email in users && r.Err? ==> r.error == AccountNotFound("Account not found for the given index: " + IntString(index))
  {
    match ValidateUser(users, email)
    case Err(e) => Err(e)
    case Ok(_) =>
      if index < 0 || index >= |owned| then Err(AccountNotFound("Account not found for the given index: " + IntString(index)))
      else Ok(owned[index])
  }

  /** Every stored account a registered user owns is returned for exactly
      one index. */
  lemma {:induction false} OwnedAccountHasOneIndex(users: map<string, User>, accounts: map<string, Account>,
                                                  owned: seq<Account>, email: string, a: Account)
    requires OwnedAccounts(accounts, email, owned) && email in users
    requires a in accounts.Values && a.owner == email
    ensures exists i :: 0 <= i < |owned| && GetAccountByIndex(users, accounts, owned, email, i) == Ok(a)
    ensures forall i, j ::
      GetAccountByIndex(users, accounts, owned, email, i) == Ok(a) && GetAccountByIndex(users, accounts, owned, email, j) == Ok(a)
      ==> i == j
  {
    assert a in owned;
    var i :| 0 <= i < |owned| && owned[i] == a;
    assert GetAccountByIndex(users, accounts, owned, email, i) == Ok(a);
  }

  predicate Alphanumeric(c: char) { 'A' <= c <= 'Z' || 'a' <= c <= 'z' || '0' <= c <= '9' }

  function LowerChar(c: char): char
  {
    if 'A' <= c <= 'Z' then (c as int + 32) as char else c
  }

  /** `toLowerCase` on ASCII text. */
  function ToLower(s: string): (r: string)
    ensures |r| == |s|
    ensures forall k :: 0 <= k < |s| ==> r[k] == LowerChar(s[k])
  {
    seq(|s|, k requires 0 <= k < |s| => LowerChar(s[k]))
  }

  /** What `randomAlphanumeric(6)` yields. */
  predicate IsDraw(s: string)
  {
    |s| == 6 && forall k :: 0 <= k < 6 ==> Alphanumeric(s[k])
  }

  /** The loop terminates on these draws: some draw, lower-cased, is free. */
  predicate SomeDrawFree(taken: map<string, Account>, draws: seq<string>)
  {
    exists i :: 0 <= i < |draws| && ToLower(draws[i]) !in taken
  }

  /** The number `generateUniqueAccountNumber` settles on: the first draw
      whose lower-cased text is not taken. */
  function FirstFree(taken: map<string, Account>, draws: seq<string>): (r: string)
    requires SomeDrawFree(taken, draws)
    ensures r !in taken
    ensures exists i :: 0 <= i < |draws| && r == ToLower(draws[i])
                        && forall j :: 0 <= j < i ==> ToLower(draws[j]) in taken
  {
    if ToLower(draws[0]) !in taken then ToLower(draws[0])
    else
      var r := FirstFree(taken, draws[1..]);
      var i :| 0 <= i < |draws[1..]| && r == ToLower(draws[1..][i])
               && forall j :: 0 <= j < i ==> ToLower(draws[1..][j]) in taken;
      assert r == ToLower(draws[i + 1]);
      r
  }

  /** When every draw is six letters or digits, the number chosen is six
      lower-case letters or digits. */
  lemma FirstFreeShape(taken: map<string, Account>, draws: seq<string>)
    requires SomeDrawFree(taken, draws)
    requires forall i :: 0 <= i < |draws| ==> IsDraw(draws[i])
    ensures |FirstFree(taken, draws)| == 6
    ensures forall k :: 0 <= k < 6 ==>
      'a' <= FirstFree(taken, draws)[k] <= 'z' || '0' <= FirstFree(taken, draws)[k] <= '9'
  {
    var i :| 0 <= i < |draws| && FirstFree(taken, draws) == ToLower(draws[i]);
    assert IsDraw(draws[i]);
  }

  /** `generateUniqueAccountNumber`: draw until the lower-cased draw is not
      stored. */
  method GenerateUniqueAccountNumber(db: Store, draws: seq<string>) returns (number: string)
    requires SomeDrawFree(db.accounts, draws)
    ensures number == FirstFree(db.accounts, draws)
  {
    var i := 0;
    number := ToLower(draws[0]);
    while number in db.accounts
      invariant 0 <= i < |draws| && number == ToLower(draws[i])
      invariant forall j :: 0 <= j < i ==> ToLower(draws[j]) in db.accounts
      invariant FirstFree(db.accounts, draws) == FirstFree(db.accounts, draws[i..])
      decreases |draws| - i
    {
      assert draws[i..][1..] == draws[i + 1..];
      i := i + 1;
      number := ToLower(draws[i]);
    }
  }

  /** The account `createNewAccount` stores: owned by the caller, of the
      requested type, with a zero balance. */
  function NewAccount(number: string, email: string, accountType: string): (a: Account)
    ensures a.number == number && a.owner == email && a.accountType == accountType && a.balance == 0.0
  {
    Account(number, email, accountType, 0.0)
  }

  /** The audit entries `createNewAccount` writes: one for an "Invest"
      account (compared exactly), none otherwise. */
  function CreationLog(number: string, accountType: string, now: int): (r: seq<InvestmentLog>)
    ensures accountType == InvestType ==> r == [InvestmentLog(InvestmentAccountCreated, number, now)]
    ensures accountType != InvestType ==> r == []
  {
    if accountType == InvestType then [InvestmentLog(InvestmentAccountCreated, number, now)] else []
  }

  /** `createNewAccount`: the caller must name their own main account. */
  method CreateNewAccount(db: Store, email: string, accountNumber: string, accountType: string,
                          draws: seq<string>, now: int) returns (r: Outcome)
    requires db.Valid()
    requires SomeDrawFree(db.accounts, draws)
    modifies db`accounts, db`logs
    ensures db.Valid()
    ensures email !in old(db.users) ==>
      r == Fail(UserNotFoundFor(email)) && db.accounts == old(db.accounts) && db.logs == old(db.logs)
    ensures email in old(db.users) && old(db.users)[email].mainAccount != Some(accountNumber) ==>
      r == Fail(MainAccountRequiredError) && db.accounts == old(db.accounts) && db.logs == old(db.logs)
    ensures email in old(db.users) && old(db.users)[email].mainAccount == Some(accountNumber) ==>
      var number := FirstFree(old(db.accounts), draws);
      && r == Pass
      && db.accounts == old(db.accounts)[number := NewAccount(number, email, accountType)]
      && db.logs == old(db.logs) + CreationLog(number, accountType, now)
  {
    var user := ValidateUser(db.users, email);
    if user.Err? {
      return Fail(user.error);
    }
    var main := user.value.mainAccount;
    if main.None? || main.value != accountNumber {
      return Fail(MainAccountRequiredError);
    }
    var number := GenerateUniqueAccountNumber(db, draws);
    var account := NewAccount(number, email, accountType);
    db.SaveNewAccount(account);
    if accountType == InvestType {
      db.SaveLog(InvestmentLog(InvestmentAccountCreated, number, now));
    }
    r := Pass;
  }

  /** A new account never replaces a stored one: every stored account keeps
      its number and contents, and exactly one number is added. */
  lemma {:induction false} CreationAddsOneFreshAccount(accounts: map<string, Account>, draws: seq<string>, email: string, accountType: string)
    requires SomeDrawFree(accounts, draws)
    ensures var number := FirstFree(accounts, draws);
      var after := accounts[number := NewAccount(number, email, accountType)];
      && number !in accounts
      && after.Keys == accounts.Keys + {number}
      && |after.Keys| == |accounts.Keys| + 1
      && forall n :: n in accounts ==> after[n] == accounts[n]
  {
    var number := FirstFree(accounts, draws);
    assert number !in accounts.Keys;
  }
}
