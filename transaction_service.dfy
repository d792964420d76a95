/** `TransactionService`: deposit, withdraw and transfer on the caller's main
    account, the fee schedule, the fraud rule and the transaction history.
    The caller is identified by the email the security context yields. */
module TransactionService {
  import opened Entities
  import opened Repositories
  import opened TransactionMapper

  /** Deposits of this much or more pay a 2% commission. */
  const DepositCommissionFrom: real := 50000.0
  /** Withdrawals of this much or more pay a 1% surcharge. */
  const WithdrawalSurchargeFrom: real := 10000.0
  /** Transfers of this much or more are flagged whatever the history. */
  const FraudAmountFrom: real := 80000.0
  /** `detectFrequentTransfers` looks back five seconds (clock ticks are milliseconds). */
  const FraudWindow: int := 5000

  const UserNotFoundError: Error := IllegalArgument("User not found")
  const InsufficientBalanceError: Error := InsufficientFunds("Insufficient balance")
  const TargetNotFoundError: Error := IllegalArgument("Target account not found")

  /** What a deposit of `amount` adds to the balance. */
  function DepositCredit(amount: real): (credit: real)
    ensures amount < DepositCommissionFrom ==> credit == amount
    ensures amount >= DepositCommissionFrom ==> credit == amount - amount * 2.0 / 100.0
    ensures 0.0 <= amount ==> 0.0 <= credit <= amount
  {
    if amount >= DepositCommissionFrom then amount * 0.98 else amount
  }

  /** What a withdrawal of `amount` takes from the balance. */
  function WithdrawalDebit(amount: real): (debit: real)
    ensures amount < WithdrawalSurchargeFrom ==> debit == amount
    ensures amount >= WithdrawalSurchargeFrom ==> debit == amount + amount / 100.0
    ensures 0.0 <= amount ==> amount <= debit
  {
    if amount >= WithdrawalSurchargeFrom then amount * 1.01 else amount
  }

  /** `getMainAccountForUser`: the number of the caller's main account. */
  function GetMainAccountForUser(db: Store, email: string): (r: Result<string>)
    reads db
    requires db.Valid()
    ensures r.Ok? <==> email in db.users
    ensures r.Ok? ==> r.value in db.accounts && db.users[email].mainAccount == Some(r.value)
    ensures r.Err? ==> r.error == UserNotFoundError
  {
    if email in db.users then Ok(db.users[email].mainAccount.value) else Err(UserNotFoundError)
  }

  /** `verifySufficientAccountBalance`: the funds check, against the amount
      requested (before any fee). */
  function VerifySufficientAccountBalance(account: Account, amount: real): (r: Outcome)
    ensures r.Pass? <==> amount <= account.balance
    ensures r.Fail? ==> r.error == InsufficientBalanceError
  {
    if account.balance < amount then Fail(InsufficientBalanceError) else Pass
  }

  /** `detectFrequentTransfers`: the stored transfers between the two
      accounts dated within the window before `now`. */
  function DetectFrequentTransfers(txns: seq<Txn>, source: string, target: string, now: int): (r: seq<Txn>)
    ensures forall t :: t in r <==> t in txns && t.source == Some(source) && t.target == Some(target)
                                     && now - FraudWindow < t.date
  {
    FindRecentTransfers(txns, source, target, now - FraudWindow)
  }

  /** No stored transaction is left PENDING. */
  ghost predicate Settled(txns: seq<Txn>)
  {
    forall i :: 0 <= i < |txns| ==> txns[i].status != Pending
  }

  /** Identities are positions: the i-th record has identity i + 1. */
  ghost predicate Numbered(txns: seq<Txn>)
  {
    forall i :: 0 <= i < |txns| ==> txns[i].id == i + 1
  }

  function IdsOf(ts: seq<Txn>): set<nat>
  {
    set t | t in ts :: t.id
  }

  /** The store after every record whose identity is in `ids` was set to FRAUD. */
  function MarkedFraud(txns: seq<Txn>, ids: set<nat>): (r: seq<Txn>)
    ensures |r| == |txns|
    ensures forall i :: 0 <= i < |txns| ==> r[i].(status := txns[i].status) == txns[i]
    ensures forall i :: 0 <= i < |txns| ==> (r[i].status == Fraud <==> txns[i].id in ids || txns[i].status == Fraud)
    ensures forall i :: 0 <= i < |txns| && txns[i].id !in ids ==> r[i] == txns[i]
  {
    seq(|txns|, i requires 0 <= i < |txns| =>
      if txns[i].id in ids then txns[i].(status := Fraud) else txns[i])
  }

  /** The statuses after the fraud rule ran for the stored transfer `t`, given
      the records the window query `matched`. */
  function FraudSweep(stored: seq<Txn>, matched: seq<Txn>, t: Txn): (r: seq<Txn>)
    requires 1 <= t.id <= |stored|
    ensures |r| == |stored|
    ensures t.amount >= FraudAmountFrom || |matched| > 0 ==>
      forall i :: 0 <= i < |stored| ==>
        (r[i].status == Fraud <==> stored[i].id in IdsOf(matched) || stored[i].id == t.id || stored[i].status == Fraud)
    ensures t.amount < FraudAmountFrom && |matched| == 0 ==>
      r[t.id - 1] == t.(status := Approved) && forall i :: 0 <= i < |stored| && i != t.id - 1 ==> r[i] == stored[i]
  {
    if t.amount >= FraudAmountFrom || |matched| > 0 then MarkedFraud(stored, IdsOf(matched) + {t.id})
    else stored[t.id - 1 := t.(status := Approved)]
  }

  /** The balances after `amount` left `source` and then reached `target`,
      the two updates applied in that order. */
  function Moved(accounts: map<string, Account>, source: string, target: string, amount: real): (r: map<string, Account>)
    requires source in accounts && target in accounts
    ensures r.Keys == accounts.Keys
    ensures forall n :: n in accounts ==> r[n] == accounts[n].(balance := r[n].balance)
    ensures forall n :: n in accounts && n != source && n != target ==> r[n] == accounts[n]
    ensures source != target ==> r[source].balance == accounts[source].balance - amount
    ensures source != target ==> r[target].balance == accounts[target].balance + amount
    ensures r[source].balance + (if source == target then 0.0 else r[target].balance)
         == accounts[source].balance + (if source == target then 0.0 else accounts[target].balance)
  {
    var debited := accounts[source := accounts[source].(balance := accounts[source].balance - amount)];
    debited[target := debited[target].(balance := debited[target].balance + amount)]
  }

  /** Setting one more record to FRAUD extends the marked set by its identity. */
  lemma MarkOneMore(txns: seq<Txn>, ids: set<nat>, id: nat)
    requires Numbered(txns) && 1 <= id <= |txns|
    ensures MarkedFraud(txns, ids + {id})
         == MarkedFraud(txns, ids)[id - 1 := MarkedFraud(txns, ids)[id - 1].(status := Fraud)]
  {
  }

  /** Marking changes only statuses, and only to FRAUD. */
  lemma MarkedFraudOnlyFlags(txns: seq<Txn>, ids: set<nat>)
    ensures |MarkedFraud(txns, ids)| == |txns|
    ensures forall i :: 0 <= i < |txns| ==>
      MarkedFraud(txns, ids)[i] == txns[i] || MarkedFraud(txns, ids)[i] == txns[i].(status := Fraud)
  {
  }

  /** `markTransactionsAsFraud`: each listed record is set to FRAUD and saved. */
  method MarkTransactionsAsFraud(db: Store, flagged: seq<Txn>)
    requires db.Valid()
    requires forall t :: t in flagged ==> 1 <= t.id <= |db.txns|
    modifies db`txns
    ensures db.Valid()
    ensures db.txns == MarkedFraud(old(db.txns), IdsOf(flagged))
  {
    var k := 0;
    while k < |flagged|
      invariant 0 <= k <= |flagged|
      invariant db.Valid() && |db.txns| == |old(db.txns)|
      invariant db.txns == MarkedFraud(old(db.txns), IdsOf(flagged[..k]))
    {
      var t := flagged[k];
      assert t in flagged;
      MarkOneMore(old(db.txns), IdsOf(flagged[..k]), t.id);
      db.SaveTxnStatus(t.id, Fraud);
      assert flagged[..k + 1] == flagged[..k] + [t];
      assert IdsOf(flagged[..k + 1]) == IdsOf(flagged[..k]) + {t.id};
      k := k + 1;
    }
    assert flagged[..k] == flagged;
  }

  /** `deposit`: the commission-adjusted amount is recorded and credited. */
  method Deposit(db: Store, email: string, amount: real, now: int) returns (r: Outcome)
    requires db.Valid()
    modifies db`accounts, db`txns
    ensures db.Valid()
    ensures Settled(old(db.txns)) ==> Settled(db.txns)
    ensures var m := old(GetMainAccountForUser(db, email));
      m.Err? ==> r == Fail(m.error) && db.accounts == old(db.accounts) && db.txns == old(db.txns)
    ensures var m := old(GetMainAccountForUser(db, email));
      m.Ok? ==>
        var main, credit := m.value, DepositCredit(amount);
        && r == Pass
        && db.txns == old(db.txns) + [Txn(|old(db.txns)| + 1, credit, CashDeposit, Approved, None, Some(main), now)]
        && db.accounts == old(db.accounts)[main := old(db.accounts)[main].(balance := old(db.accounts)[main].balance + credit)]
  {
    var credit := DepositCredit(amount);
    var t := Txn(0, credit, CashDeposit, Pending, None, None, now);
    var m := GetMainAccountForUser(db, email);
    if m.Err? {
      return Fail(m.error);
    }
    var main := m.value;
    t := db.SaveNewTxn(t.(target := Some(main)));
    db.SaveBalance(main, db.accounts[main].balance + credit);
    db.SaveTxnStatus(t.id, Approved);
    r := Pass;
  }

  /** `withdraw`: checked against the requested amount, which is what is
      recorded; the surcharge-adjusted amount is debited. */
  method Withdraw(db: Store, email: string, amount: real, now: int) returns (r: Outcome)
    requires db.Valid()
    modifies db`accounts, db`txns
    ensures db.Valid()
    ensures Settled(old(db.txns)) ==> Settled(db.txns)
    ensures var m := old(GetMainAccountForUser(db, email));
      m.Err? ==> r == Fail(m.error) && db.accounts == old(db.accounts) && db.txns == old(db.txns)
    ensures var m := old(GetMainAccountForUser(db, email));
      m.Ok? && old(db.accounts)[m.value].balance < amount ==>
        r == Fail(InsufficientBalanceError) && db.accounts == old(db.accounts) && db.txns == old(db.txns)
    ensures var m := old(GetMainAccountForUser(db, email));
      m.Ok? && amount <= old(db.accounts)[m.value].balance ==>
        var main, debit := m.value, WithdrawalDebit(amount);
        && r == Pass
        && db.txns == old(db.txns) + [Txn(|old(db.txns)| + 1, amount, CashWithdrawal, Approved, Some(main), None, now)]
        && db.accounts == old(db.accounts)[main := old(db.accounts)[main].(balance := old(db.accounts)[main].balance - debit)]
  {
    var debit := WithdrawalDebit(amount);
    var m := GetMainAccountForUser(db, email);
    if m.Err? {
      return Fail(m.error);
    }
    var main := m.value;
    r := VerifySufficientAccountBalance(db.accounts[main], amount);
    if r.Fail? {
      return;
    }
    var t := db.SaveNewTxn(Txn(0, amount, CashWithdrawal, Pending, Some(main), None, now));
    db.SaveBalance(main, db.accounts[main].balance - debit);
    db.SaveTxnStatus(t.id, Approved);
  }

  /** The record a transfer stores before the fraud rule runs, dated when
      it was constructed. */
  function NewTransfer(prior: seq<Txn>, source: string, target: string, amount: real, created: int): Txn
  {
    Txn(|prior| + 1, amount, CashTransfer, Pending, Some(source), Some(target), created)
  }

  /** The fraud rule never leaves the new transfer PENDING and changes the
      other records only by setting them to FRAUD. */
  lemma SweepOnlyFlags(stored: seq<Txn>, matched: seq<Txn>, t: Txn)
    requires 1 <= t.id <= |stored| && stored[t.id - 1].id == t.id
    ensures |FraudSweep(stored, matched, t)| == |stored|
    ensures FraudSweep(stored, matched, t)[t.id - 1].status != Pending
    ensures forall i :: 0 <= i < |stored| && i != t.id - 1 ==>
      FraudSweep(stored, matched, t)[i] == stored[i] || FraudSweep(stored, matched, t)[i] == stored[i].(status := Fraud)
  {
  }

  /** The second half of `transfer`, once the new record `t` is stored: the
      fraud rule over the window query's `matched` records, then the two
      balance updates, then the final save of `t`. */
  method SettleTransfer(db: Store, t: Txn, matched: seq<Txn>, source: string, target: string)
    requires db.Valid()
    requires 1 <= t.id == |db.txns| && db.txns[t.id - 1] == t && t.status == Pending
    requires forall x :: x in matched ==> 1 <= x.id <= |db.txns|
    requires source in db.accounts && target in db.accounts
    modifies db`accounts, db`txns
    ensures db.Valid()
    ensures db.txns == FraudSweep(old(db.txns), matched, t)
    ensures db.accounts == Moved(old(db.accounts), source, target, t.amount)
  {
    var saved := t;
    if t.amount >= FraudAmountFrom || |matched| > 0 {
      MarkTransactionsAsFraud(db, matched + [t]);
      assert IdsOf(matched + [t]) == IdsOf(matched) + {t.id};
      saved := t.(status := Fraud);
    } else {
      saved := t.(status := Approved);
    }
    db.SaveBalance(source, db.accounts[source].balance - t.amount);
    db.SaveBalance(target, db.accounts[target].balance + t.amount);
    db.SaveTxnStatus(t.id, saved.status);
  }

  /** `transfer`, as written: the new record is stored before the window
      query runs, the query's records and the new one become FRAUD when the
      rule fires, and the money moves either way, with no fee. */
  method Transfer(db: Store, email: string, targetNumber: string, amount: real, created: int, now: int) returns (r: Outcome)
    requires db.Valid()
    requires created <= now
    modifies db`accounts, db`txns
    ensures db.Valid()
    ensures var m := old(GetMainAccountForUser(db, email));
      m.Err? ==> r == Fail(m.error) && db.accounts == old(db.accounts) && db.txns == old(db.txns)
    ensures var m := old(GetMainAccountForUser(db, email));
      m.Ok? && old(db.accounts)[m.value].balance < amount ==>
        r == Fail(InsufficientBalanceError) && db.accounts == old(db.accounts) && db.txns == old(db.txns)
    ensures var m := old(GetMainAccountForUser(db, email));
      m.Ok? && amount <= old(db.accounts)[m.value].balance && targetNumber !in old(db.accounts) ==>
        r == Fail(TargetNotFoundError) && db.accounts == old(db.accounts) && db.txns == old(db.txns)
    ensures var m := old(GetMainAccountForUser(db, email));
      m.Ok? && amount <= old(db.accounts)[m.value].balance && targetNumber in old(db.accounts) ==>
        var t := NewTransfer(old(db.txns), m.value, targetNumber, amount, created);
        var stored := old(db.txns) + [t];
        && r == Pass
        && db.txns == FraudSweep(stored, DetectFrequentTransfers(stored, m.value, targetNumber, now), t)
        && db.accounts == Moved(old(db.accounts), m.value, targetNumber, amount)
  {
    var m := GetMainAccountForUser(db, email);
    if m.Err? {
      return Fail(m.error);
    }
    var main := m.value;
    r := VerifySufficientAccountBalance(db.accounts[main], amount);
    if r.Fail? {
      return;
    }
    if targetNumber !in db.accounts {
      return Fail(TargetNotFoundError);
    }
    var t := db.SaveNewTxn(Txn(0, amount, CashTransfer, Pending, Some(main), Some(targetNumber), created));
    var matched := DetectFrequentTransfers(db.txns, main, targetNumber, now);
    SettleTransfer(db, t, matched, main, targetNumber);
  }

  /** `transfer` with the window query run over the records stored before the
      new transfer, so that only earlier transfers can trigger the rule. */
  method TransferIntended(db: Store, email: string, targetNumber: string, amount: real, created: int, now: int) returns (r: Outcome)
    requires db.Valid()
    requires created <= now
    modifies db`accounts, db`txns
    ensures db.Valid()
    ensures var m := old(GetMainAccountForUser(db, email));
      m.Err? ==> r == Fail(m.error) && db.accounts == old(db.accounts) && db.txns == old(db.txns)
    ensures var m := old(GetMainAccountForUser(db, email));
      m.Ok? && old(db.accounts)[m.value].balance < amount ==>
        r == Fail(InsufficientBalanceError) && db.accounts == old(db.accounts) && db.txns == old(db.txns)
    ensures var m := old(GetMainAccountForUser(db, email));
      m.Ok? && amount <= old(db.accounts)[m.value].balance && targetNumber !in old(db.accounts) ==>
        r == Fail(TargetNotFoundError) && db.accounts == old(db.accounts) && db.txns == old(db.txns)
    ensures var m := old(GetMainAccountForUser(db, email));
      m.Ok? && amount <= old(db.accounts)[m.value].balance && targetNumber in old(db.accounts) ==>
        var t := NewTransfer(old(db.txns), m.value, targetNumber, amount, created);
        && r == Pass
        && db.txns == FraudSweep(old(db.txns) + [t], DetectFrequentTransfers(old(db.txns), m.value, targetNumber, now), t)
        && db.accounts == Moved(old(db.accounts), m.value, targetNumber, amount)
  {
    var m := GetMainAccountForUser(db, email);
    if m.Err? {
      return Fail(m.error);
    }
    var main := m.value;
    r := VerifySufficientAccountBalance(db.accounts[main], amount);
    if r.Fail? {
      return;
    }
    if targetNumber !in db.accounts {
      return Fail(TargetNotFoundError);
    }
    var matched := DetectFrequentTransfers(db.txns, main, targetNumber, now);
    var t := db.SaveNewTxn(Txn(0, amount, CashTransfer, Pending, Some(main), Some(targetNumber), created));
    SettleTransfer(db, t, matched, main, targetNumber);
  }

  /** What the as-written query finds is what the intended query finds plus
      the new transfer itself, whenever the query runs less than the window
      after the transfer was constructed. */
  lemma AsWrittenQueryFindsItself(prior: seq<Txn>, source: string, target: string, amount: real, created: int, now: int)
    ensures var t := NewTransfer(prior, source, target, amount, created);
      DetectFrequentTransfers(prior + [t], source, target, now)
      == DetectFrequentTransfers(prior, source, target, now) + (if now - created < FraudWindow then [t] else [])
  {
    var t := NewTransfer(prior, source, target, amount, created);
    FindRecentTransfersAppend(prior, t, source, target, now - FraudWindow);
  }

  /** The records a transfer's fraud rule marks are exactly the new one and
      the earlier matches, provided the rule fires. */
  lemma {:induction false} SweepMarksMatches(prior: seq<Txn>, t: Txn, matched: seq<Txn>, source: string, target: string, since: int)
    requires Numbered(prior) && t.id == |prior| + 1
    requires matched == FindRecentTransfers(prior, source, target, since)
    ensures forall i :: 0 <= i < |prior| ==>
      (prior[i].id in IdsOf(matched) <==> IsRecentTransfer(prior[i], source, target, since))
    ensures t.id !in IdsOf(matched)
  {
    forall i | 0 <= i < |prior|
      ensures prior[i].id in IdsOf(matched) <==> IsRecentTransfer(prior[i], source, target, since)
    {
      if prior[i].id in IdsOf(matched) {
        var x :| x in matched && x.id == prior[i].id;
        var j :| 0 <= j < |prior| && prior[j] == x;
        assert j == i;
      }
      if IsRecentTransfer(prior[i], source, target, since) {
        assert prior[i] in matched;
      }
    }
  }

  /** As written, every transfer whose window query runs less than five
      seconds after the transfer was constructed ends FRAUD, whatever its
      amount and history, and every earlier transfer between the same
      accounts inside the window is set to FRAUD with it. */
  lemma {:induction false} TransferAlwaysFlagged(prior: seq<Txn>, source: string, target: string, amount: real, created: int, now: int)
    requires Numbered(prior)
    requires created <= now && now - created < FraudWindow
    ensures var t := NewTransfer(prior, source, target, amount, created);
      var stored := prior + [t];
      var after := FraudSweep(stored, DetectFrequentTransfers(stored, source, target, now), t);
      && |after| == |stored|
      && after[|prior|] == t.(status := Fraud)
      && forall i :: 0 <= i < |prior| ==>
           after[i] == (if IsRecentTransfer(prior[i], source, target, now - FraudWindow) then prior[i].(status := Fraud) else prior[i])
  {
    var t := NewTransfer(prior, source, target, amount, created);
    var stored := prior + [t];
    var matched := DetectFrequentTransfers(prior, source, target, now);
    AsWrittenQueryFindsItself(prior, source, target, amount, created, now);
    SweepMarksMatches(prior, t, matched, source, target, now - FraudWindow);
    assert IdsOf(matched + [t]) == IdsOf(matched) + {t.id};
  }

  /** When five seconds or more pass between constructing the transfer and
      querying the window, the as-written query no longer finds the transfer
      itself, and the as-written rule gives what the corrected rule gives. */
  lemma SlowTransferAsIntended(prior: seq<Txn>, source: string, target: string, amount: real, created: int, now: int)
    requires now - created >= FraudWindow
    ensures var t := NewTransfer(prior, source, target, amount, created);
      && DetectFrequentTransfers(prior + [t], source, target, now) == DetectFrequentTransfers(prior, source, target, now)
      && FraudSweep(prior + [t], DetectFrequentTransfers(prior + [t], source, target, now), t)
         == FraudSweep(prior + [t], DetectFrequentTransfers(prior, source, target, now), t)
  {
    AsWrittenQueryFindsItself(prior, source, target, amount, created, now);
  }

  /** With the query over the earlier records, a transfer is flagged exactly
      when it reaches the amount threshold or an earlier transfer between the
      same accounts lies inside the window; only then are those earlier
      transfers set to FRAUD, and otherwise the new one is APPROVED. */
  lemma {:induction false} IntendedFraudRule(prior: seq<Txn>, source: string, target: string, amount: real, created: int, now: int)
    requires Numbered(prior)
    ensures var t := NewTransfer(prior, source, target, amount, created);
      var after := FraudSweep(prior + [t], DetectFrequentTransfers(prior, source, target, now), t);
      var flagged := amount >= FraudAmountFrom
                     || exists x :: x in prior && IsRecentTransfer(x, source, target, now - FraudWindow);
      && |after| == |prior| + 1
      && after[|prior|] == t.(status := if flagged then Fraud else Approved)
      && forall i :: 0 <= i < |prior| ==>
           after[i] == (if flagged && IsRecentTransfer(prior[i], source, target, now - FraudWindow)
                        then prior[i].(status := Fraud) else prior[i])
  {
    var t := NewTransfer(prior, source, target, amount, created);
    var matched := DetectFrequentTransfers(prior, source, target, now);
    SweepMarksMatches(prior, t, matched, source, target, now - FraudWindow);
    var flagged := amount >= FraudAmountFrom
                   || exists x :: x in prior && IsRecentTransfer(x, source, target, now - FraudWindow);
    if exists x :: x in prior && IsRecentTransfer(x, source, target, now - FraudWindow) {
      var x :| x in prior && IsRecentTransfer(x, source, target, now - FraudWindow);
      assert x in matched;
    }
    if |matched| > 0 {
      assert matched[0] in matched;
    }
    assert flagged <==> amount >= FraudAmountFrom || |matched| > 0;
  }

  /** A transfer leaves no record PENDING, however its fraud rule went. */
  lemma TransferKeepsSettled(prior: seq<Txn>, matched: seq<Txn>, source: string, target: string, amount: real, created: int)
    requires Settled(prior)
    ensures var t := NewTransfer(prior, source, target, amount, created);
      Settled(FraudSweep(prior + [t], matched, t))
  {
    var t := NewTransfer(prior, source, target, amount, created);
    SweepOnlyFlags(prior + [t], matched, t);
  }

  /** The funds check compares the balance with the requested amount, not
      with the surcharged debit: a withdrawal the check lets through leaves
      the balance negative exactly when the surcharge applies and the
      balance is below the amount plus 1%. */
  lemma WithdrawalCanOverdraw(account: Account, amount: real)
    requires VerifySufficientAccountBalance(account, amount).Pass?
    ensures account.balance - WithdrawalDebit(amount) < 0.0
        <==> WithdrawalSurchargeFrom <= amount && account.balance < amount * 1.01
  {
  }

  /** A balance of exactly 10000 passes a withdrawal of 10000 and ends at -100. */
  lemma WithdrawalOverdrawExample()
    ensures var account := Account("a", "u", "Main", 10000.0);
      && VerifySufficientAccountBalance(account, 10000.0) == Pass
      && account.balance - WithdrawalDebit(10000.0) == -100.0
  {
  }

  /** `getTransactionHistory`: one response per stored transaction, in store order. */
  function GetTransactionHistory(txns: seq<Txn>): (r: seq<TransactionResponse>)
    ensures |r| == |txns|
    ensures forall i :: 0 <= i < |txns| ==> r[i] == ToTransactionResponse(txns[i])
  {
    if txns == [] then []
    else [ToTransactionResponse(txns[0])] + GetTransactionHistory(txns[1..])
  }

  /** As written, the history holds every stored transaction, including
      transfers between accounts the caller does not own. */
  lemma HistoryShowsOtherUsersTransfers(txns: seq<Txn>, main: string, t: Txn)
    requires t in txns && t.source != Some(main) && t.target != Some(main)
    ensures ToTransactionResponse(t) in GetTransactionHistory(txns)
  {
    var i :| 0 <= i < |txns| && txns[i] == t;
    assert GetTransactionHistory(txns)[i] == ToTransactionResponse(t);
  }

  /** The history of the caller's main account: the stored transactions it
      sent or received, through the source-or-target finder. */
  function GetTransactionHistoryForAccount(txns: seq<Txn>, main: string): (r: seq<TransactionResponse>)
    ensures |r| <= |txns|
    ensures forall i :: 0 <= i < |r| ==>
      exists t :: t in txns && (t.source == Some(main) || t.target == Some(main)) && r[i] == ToTransactionResponse(t)
  {
    GetTransactionHistory(FindBySourceOrTarget(txns, main, main))
  }

  /** The account's history holds a stored transaction's response exactly
      when the account sent or received it. */
  lemma {:induction false} AccountHistoryIsScoped(txns: seq<Txn>, main: string, t: Txn)
    requires t in txns && main != NotAvailable
    ensures ToTransactionResponse(t) in GetTransactionHistoryForAccount(txns, main)
        <==> t.source == Some(main) || t.target == Some(main)
  {
    var mine := FindBySourceOrTarget(txns, main, main);
    var history := GetTransactionHistoryForAccount(txns, main);
    if t.source == Some(main) || t.target == Some(main) {
      var i :| 0 <= i < |mine| && mine[i] == t;
      assert history[i] == ToTransactionResponse(t);
    }
  }
}
