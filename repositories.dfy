/** The persistence layer: the five repositories as the fields of one store,
    and the queries the services run against them. */
module Repositories {
  import opened Entities

  /** The rows of a table that satisfy a query's condition, in table order. */
  function Filter<T(!new)>(s: seq<T>, p: T -> bool): (r: seq<T>)
    ensures |r| <= |s|
    ensures forall x :: x in r <==> x in s && p(x)
  {
    if s == [] then []
    else (if p(s[0]) then [s[0]] else []) + Filter(s[1..], p)
  }

  /** A row appended to a table is found after the rows already there. */
  lemma {:induction false} FilterAppend<T(!new)>(s: seq<T>, x: T, p: T -> bool)
    ensures Filter(s + [x], p) == Filter(s, p) + (if p(x) then [x] else [])
  {
    if s == [] {
      assert s + [x] == [x];
    } else {
      assert (s + [x])[1..] == s[1..] + [x];
      FilterAppend(s[1..], x, p);
    }
  }

  /** The WHERE clause of `findRecentTransfers`. A missing source or target
      account never equals an account number. */
  predicate IsRecentTransfer(t: Txn, source: string, target: string, since: int)
  {
    t.source == Some(source) && t.target == Some(target) && t.date > since
  }

  /** `TransactionRepository.findRecentTransfers`. */
  function FindRecentTransfers(txns: seq<Txn>, source: string, target: string, since: int): (r: seq<Txn>)
    ensures forall t :: t in r <==> t in txns && IsRecentTransfer(t, source, target, since)
  {
    Filter(txns, t => IsRecentTransfer(t, source, target, since))
  }

  /** A record appended to the table is found last, exactly when it matches. */
  lemma FindRecentTransfersAppend(txns: seq<Txn>, x: Txn, source: string, target: string, since: int)
    ensures FindRecentTransfers(txns + [x], source, target, since)
         == FindRecentTransfers(txns, source, target, since) + (if IsRecentTransfer(x, source, target, since) then [x] else [])
  {
    FilterAppend(txns, x, t => IsRecentTransfer(t, source, target, since));
  }

  /** The query matches on accounts and date only: a record dated exactly
      `since` is left out, a record lacking a source or a target is never
      found, and a stored transfer is found whatever its type and status. */
  lemma RecentTransfersQueryShape(txns: seq<Txn>, source: string, target: string, since: int)
    ensures forall t :: t in txns && t.date == since ==> t !in FindRecentTransfers(txns, source, target, since)
    ensures forall t :: t in txns && (t.source.None? || t.target.None?) ==> t !in FindRecentTransfers(txns, source, target, since)
    ensures forall t :: t in txns && t.source == Some(source) && t.target == Some(target) && t.date > since
                        ==> t in FindRecentTransfers(txns, source, target, since)
  {
  }

  /** `findBySourceAccount_AccountNumberOrTargetAccount_AccountNumber`. */
  function FindBySourceOrTarget(txns: seq<Txn>, source: string, target: string): (r: seq<Txn>)
    ensures forall t :: t in r <==> t in txns && (t.source == Some(source) || t.target == Some(target))
  {
    Filter(txns, (t: Txn) => t.source == Some(source) || t.target == Some(target))
  }

  /** `TokenRepository.findByToken`: the position of the stored token. */
  function FindToken(tokens: seq<Token>, token: string): (r: Option<nat>)
    ensures r.Some? ==> r.value < |tokens| && tokens[r.value].token == token
    ensures r.Some? ==> forall j :: 0 <= j < r.value ==> tokens[j].token != token
    ensures r.None? <==> forall j :: 0 <= j < |tokens| ==> tokens[j].token != token
  {
    if tokens == [] then None
    else if tokens[0].token == token then Some(0)
    else match FindToken(tokens[1..], token)
      case None => None
      case Some(i) => Some(i + 1)
  }

  /** Rewriting a token's flags leaves every lookup where it was. */
  lemma {:induction false} FindTokenIgnoresFlags(tokens: seq<Token>, i: nat, t: Token, token: string)
    requires i < |tokens| && t.token == tokens[i].token
    ensures FindToken(tokens[i := t], token) == FindToken(tokens, token)
  {
    if tokens[0].token != token && i > 0 {
      assert tokens[i := t][1..] == tokens[1..][i - 1 := t];
      FindTokenIgnoresFlags(tokens[1..], i - 1, t, token);
    }
  }

  /** The database: AccountRepository (keyed by account number),
      TransactionRepository (in insertion order), InvestmentAccountLogRepository,
      UserRepository (keyed by email) and TokenRepository. */
  class Store {
    var accounts: map<string, Account>
    var txns: seq<Txn>
    var logs: seq<InvestmentLog>
    var users: map<string, User>
    var tokens: seq<Token>

    /** The keys are the entities' unique columns, identities count up from 1,
        and every user's main account is stored. */
    ghost predicate Valid()
      reads this
    {
      && (forall n :: n in accounts ==> accounts[n].number == n)
      && (forall i :: 0 <= i < |txns| ==> txns[i].id == i + 1)
      && (forall e :: e in users ==>
            users[e].email == e && users[e].mainAccount.Some? && users[e].mainAccount.value in accounts)
      && (forall i, j :: 0 <= i < j < |tokens| ==> tokens[i].token != tokens[j].token)
    }

    constructor ()
      ensures Valid()
      ensures accounts == map[] && txns == [] && logs == [] && users == map[] && tokens == []
    {
      accounts, txns, logs := map[], [], [];
      users, tokens := map[], [];
    }

    /** `transactionRepository.save` of a new record: the store assigns the
        next identity. */
    method SaveNewTxn(t: Txn) returns (saved: Txn)
      requires Valid()
      modifies this`txns
      ensures Valid()
      ensures saved == t.(id := |old(txns)| + 1)
      ensures txns == old(txns) + [saved]
    {
      saved := t.(id := |txns| + 1);
      txns := txns + [saved];
    }

    /** `transactionRepository.save` of a record whose status was changed. */
    method SaveTxnStatus(id: nat, status: TxnStatus)
      requires Valid()
      requires 1 <= id <= |txns|
      modifies this`txns
      ensures Valid()
      ensures txns == old(txns)[id - 1 := old(txns)[id - 1].(status := status)]
    {
      txns := txns[id - 1 := txns[id - 1].(status := status)];
    }

    /** `tokenRepository.save` of a new token; the unique column refuses a
        token string that is already stored. */
    method SaveNewToken(t: Token) returns (saved: bool)
      requires Valid()
      modifies this`tokens
      ensures Valid()
      ensures saved <==> FindToken(old(tokens), t.token).None?
      ensures tokens == if saved then old(tokens) + [t] else old(tokens)
    {
      saved := FindToken(tokens, t.token).None?;
      if saved {
        tokens := tokens + [t];
      }
    }

    /** `tokenRepository.save` of a stored token whose flags were changed. */
    method SaveToken(i: nat, t: Token)
      requires Valid()
      requires i < |tokens| && t.token == tokens[i].token
      modifies this`tokens
      ensures Valid()
      ensures tokens == old(tokens)[i := t]
    {
      tokens := tokens[i := t];
    }

    /** `accountRepository.save` of a new account under a number not yet taken. */
    method SaveNewAccount(a: Account)
      requires Valid()
      requires a.number !in accounts
      modifies this`accounts
      ensures Valid()
      ensures accounts == old(accounts)[a.number := a]
    {
      accounts := accounts[a.number := a];
    }

    /** `investmentAccountLogRepository.save`. */
    method SaveLog(entry: InvestmentLog)
      modifies this`logs
      ensures logs == old(logs) + [entry]
    {
      logs := logs + [entry];
    }

    /** `userRepository.save` of a new user, cascading to the main account;
        the unique columns refuse an email or an account number already
        stored. */
    method SaveNewUser(u: User, main: Account) returns (saved: bool)
      requires Valid()
      requires u.mainAccount == Some(main.number)
      modifies this`users, this`accounts
      ensures Valid()
      ensures saved <==> u.email !in old(users) && main.number !in old(accounts)
      ensures saved ==> users == old(users)[u.email := u] && accounts == old(accounts)[main.number := main]
      ensures !saved ==> users == old(users) && accounts == old(accounts)
    {
      saved := u.email !in users && main.number !in accounts;
      if saved {
        accounts := accounts[main.number := main];
        users := users[u.email := u];
      }
    }

    /** `accountRepository.save` of an account whose balance was changed. */
    method SaveBalance(number: string, balance: real)
      requires Valid()
      requires number in accounts
      modifies this`accounts
      ensures Valid()
      ensures accounts == old(accounts)[number := old(accounts)[number].(balance := balance)]
    {
      accounts := accounts[number := accounts[number].(balance := balance)];
    }
  }
}
