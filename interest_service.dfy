/** `ScheduledInvestmentInterestService`: one run of the interest job. The
    timer that repeats the run is not part of this model. */
module InvestmentInterestService {
  import opened Entities
  import opened Repositories

  const InterestApplied: string := "Interest Applied"

  /** The balance after one accrual of 10%. */
  function Accrued(balance: real): (r: real)
    ensures r == balance * 11.0 / 10.0
    ensures 0.0 <= balance ==> balance <= r
    ensures balance == 0.0 <==> r == 0.0
  {
    balance + balance * 0.10
  }

  /** The numbers of the accounts whose type is exactly "Invest". */
  function InvestNumbers(accounts: map<string, Account>): set<string>
  {
    set n | n in accounts && accounts[n].accountType == InvestType
  }

  /** The accounts after one run: each "Invest" account accrued once, every
      other account as it was. */
  function WithInterest(accounts: map<string, Account>): (r: map<string, Account>)
    ensures r.Keys == accounts.Keys
  {
    map n | n in accounts ::
      if accounts[n].accountType == InvestType then accounts[n].(balance := Accrued(accounts[n].balance))
      else accounts[n]
  }

  /** One run touches only "Invest" accounts, changes only their balance,
      and never lowers a non-negative balance. */
  lemma WithInterestEffect(accounts: map<string, Account>)
    ensures forall n :: n in accounts && accounts[n].accountType != InvestType ==> WithInterest(accounts)[n] == accounts[n]
    ensures forall n :: n in InvestNumbers(accounts) ==>
      WithInterest(accounts)[n] == accounts[n].(balance := accounts[n].balance * 11.0 / 10.0)
    ensures forall n :: n in accounts && 0.0 <= accounts[n].balance ==> accounts[n].balance <= WithInterest(accounts)[n].balance
    ensures forall n :: n in accounts && accounts[n].balance == 0.0 ==> WithInterest(accounts)[n].balance == 0.0
  {
  }

  /** The log entries of one run, in the order the accounts were taken. */
  function LogEntries(numbers: seq<string>, now: int): (r: seq<InvestmentLog>)
    ensures |r| == |numbers|
    ensures forall i :: 0 <= i < |r| ==> r[i] == InvestmentLog(InterestApplied, numbers[i], now)
  {
    seq(|numbers|, i requires 0 <= i < |numbers| => InvestmentLog(InterestApplied, numbers[i], now))
  }

  /** One more account taken adds its entry at the end. */
  lemma LogEntriesAppend(numbers: seq<string>, n: string, now: int)
    ensures LogEntries(numbers + [n], now) == LogEntries(numbers, now) + [InvestmentLog(InterestApplied, n, now)]
  {
  }

  /** The accounts part-way through a run, once the "Invest" accounts in
      `done` have been accrued. */
  function PartlyAccrued(start: map<string, Account>, done: set<string>): map<string, Account>
  {
    map n | n in start :: if n in done then WithInterest(start)[n] else start[n]
  }

  /** Accruing one more account extends the run by that account. */
  lemma AccrueOneMore(start: map<string, Account>, done: set<string>, n: string)
    requires n in InvestNumbers(start) && n !in done
    ensures var before := PartlyAccrued(start, done);
      PartlyAccrued(start, done + {n}) == before[n := before[n].(balance := Accrued(before[n].balance))]
  {
  }

  /** Once every "Invest" account is accrued, the run is complete. */
  lemma AllAccrued(start: map<string, Account>)
    ensures PartlyAccrued(start, InvestNumbers(start)) == WithInterest(start)
  {
  }

  /** The body of the run's loop: the listed account is accrued and saved,
      then its entry is saved. */
  method AccrueAccount(db: Store, ghost start: map<string, Account>, ghost done: set<string>, account: Account, now: int)
    requires db.Valid() && db.accounts == PartlyAccrued(start, done)
    requires account.number in InvestNumbers(start) && account.number !in done && start[account.number] == account
    modifies db`accounts, db`logs
    ensures db.Valid() && db.accounts == PartlyAccrued(start, done + {account.number})
    ensures db.logs == old(db.logs) + [InvestmentLog(InterestApplied, account.number, now)]
  {
    AccrueOneMore(start, done, account.number);
    db.SaveBalance(account.number, Accrued(account.balance));
    db.SaveLog(InvestmentLog(InterestApplied, account.number, now));
  }

  /** `AccountRepository.findAllByAccountType`: every stored account of
      that type, each once, in an order the repository chooses. */
  method FindAllByAccountType(db: Store, accountType: string) returns (found: seq<Account>)
    requires db.Valid()
    ensures forall a :: a in found <==> a in db.accounts.Values && a.accountType == accountType
    ensures forall i, j :: 0 <= i < j < |found| ==> found[i].number != found[j].number
  {
    var todo := db.accounts.Keys;
    found := [];
    while todo != {}
      invariant todo <= db.accounts.Keys
      invariant forall a :: a in found <==>
        a.number in db.accounts && a.number !in todo && db.accounts[a.number] == a && a.accountType == accountType
      invariant forall i, j :: 0 <= i < j < |found| ==> found[i].number != found[j].number
      decreases |todo|
    {
      var n :| n in todo;
      var a := db.accounts[n];
      if a.accountType == accountType {
        found := found + [a];
      }
      todo := todo - {n};
    }
  }

  function NumbersOf(accounts: seq<Account>): set<string>
  {
    set a | a in accounts :: a.number
  }

  /** The account numbers of a list, in list order. */
  function Numbers(accounts: seq<Account>): (r: seq<string>)
    ensures |r| == |accounts|
  {
    seq(|accounts|, i requires 0 <= i < |accounts| => accounts[i].number)
  }

  /** Taking the next listed account. */
  lemma NextListed(accounts: seq<Account>, k: nat)
    requires k < |accounts|
    ensures NumbersOf(accounts[..k + 1]) == NumbersOf(accounts[..k]) + {accounts[k].number}
    ensures Numbers(accounts[..k + 1]) == Numbers(accounts[..k]) + [accounts[k].number]
  {
    assert accounts[..k + 1] == accounts[..k] + [accounts[k]];
  }

  /** A list holding exactly the "Invest" accounts holds exactly their numbers. */
  lemma ListedNumbers(start: map<string, Account>, listed: seq<Account>)
    requires forall n :: n in start ==> start[n].number == n
    requires forall a :: a in listed <==> a in start.Values && a.accountType == InvestType
    ensures NumbersOf(listed) == InvestNumbers(start)
  {
    forall n | n in InvestNumbers(start)
      ensures n in NumbersOf(listed)
    {
      assert start[n] in start.Values;
    }
  }

  /** `applyInterestToAllInvestmentAccounts`: the "Invest" accounts are
      listed, then each is accrued and saved and gets one "Interest Applied"
      entry; the list is returned so that the entries' order can be stated. */
  method ApplyInterestToAllInvestmentAccounts(db: Store, now: int) returns (investment: seq<Account>)
    requires db.Valid()
    modifies db`accounts, db`logs
    ensures db.Valid()
    ensures db.accounts == WithInterest(old(db.accounts))
    ensures forall a :: a in investment <==> a in old(db.accounts).Values && a.accountType == InvestType
    ensures forall i, j :: 0 <= i < j < |investment| ==> investment[i].number != investment[j].number
    ensures db.logs == old(db.logs) + LogEntries(Numbers(investment), now)
  {
    ghost var start := db.accounts;
    investment := FindAllByAccountType(db, InvestType);
    var k := 0;
    while k < |investment|
      invariant k <= |investment|
      invariant db.Valid()
      invariant db.accounts == PartlyAccrued(start, NumbersOf(investment[..k]))
      invariant db.logs == old(db.logs) + LogEntries(Numbers(investment[..k]), now)
    {
      var account := investment[k];
      assert account in investment;
      assert account.number !in NumbersOf(investment[..k]);
      NextListed(investment, k);
      LogEntriesAppend(Numbers(investment[..k]), account.number, now);
      AccrueAccount(db, start, NumbersOf(investment[..k]), account, now);
      k := k + 1;
    }
    assert investment[..k] == investment;
    ListedNumbers(start, investment);
    AllAccrued(start);
  }
}
