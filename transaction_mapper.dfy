/** `TransactionMapper`: the read model of a stored transaction, as the
    history endpoint returns it. */
module TransactionMapper {
  import opened Entities

  /** The placeholder for an absent enum value or an absent account. */
  const NotAvailable: string := "N/A"

  /** `TransactionResponse`: enum fields rendered as strings, the date as
      epoch milliseconds (or absent), the accounts as their numbers. */
  datatype TransactionResponse = TransactionResponse(
    id: nat,
    amount: real,
    transactionType: string,
    transactionStatus: string,
    transactionDate: Option<int>,
    sourceAccountNumber: string,
    targetAccountNumber: string)

  /** `TransactionType.name()`. */
  function TypeName(t: TxnType): string
  {
    match t
    case CashDeposit => "CASH_DEPOSIT"
    case CashWithdrawal => "CASH_WITHDRAWAL"
    case CashTransfer => "CASH_TRANSFER"
  }

  /** `TransactionStatus.name()`. */
  function StatusName(s: TxnStatus): string
  {
    match s
    case Pending => "PENDING"
    case Approved => "APPROVED"
    case Fraud => "FRAUD"
  }

  /** `enumToString`, given the enum's name when the value is not null. */
  function EnumToString(name: Option<string>): (r: string)
    ensures name.Some? ==> r == name.value
    ensures name.None? ==> r == NotAvailable
  {
    match name
    case Some(n) => n
    case None => NotAvailable
  }

  /** `localDateTimeToLong`: clock ticks are already epoch milliseconds, so
      only the null case is of interest. */
  function LocalDateTimeToLong(date: Option<int>): (r: Option<int>)
    ensures r.None? <==> date.None?
    ensures date.Some? ==> r == date
  {
    match date
    case Some(d) => Some(d)
    case None => None
  }

  /** The mapping's `defaultValue = "N/A"` for a missing account. */
  function AccountNumberOrDefault(account: Option<string>): string
  {
    match account
    case Some(n) => n
    case None => NotAvailable
  }

  /** `toTransactionResponse`. */
  function ToTransactionResponse(t: Txn): (r: TransactionResponse)
    ensures r.id == t.id && r.amount == t.amount
    ensures r.transactionType == EnumToString(Some(TypeName(t.txnType)))
    ensures r.transactionStatus == EnumToString(Some(StatusName(t.status)))
    ensures r.transactionDate == LocalDateTimeToLong(Some(t.date))
    ensures t.source.Some? ==> r.sourceAccountNumber == t.source.value
    ensures t.target.Some? ==> r.targetAccountNumber == t.target.value
    ensures t.source.None? ==> r.sourceAccountNumber == NotAvailable
    ensures t.target.None? ==> r.targetAccountNumber == NotAvailable
  {
    TransactionResponse(
      t.id,
      t.amount,
      EnumToString(Some(TypeName(t.txnType))),
      EnumToString(Some(StatusName(t.status))),
      LocalDateTimeToLong(Some(t.date)),
      AccountNumberOrDefault(t.source),
      AccountNumberOrDefault(t.target))
  }

  /** Reads a rendered type back; "N/A" and any other string read as absent. */
  function ParseType(s: string): (r: Option<TxnType>)
    ensures r.Some? ==> TypeName(r.value) == s
  {
    if s == "CASH_DEPOSIT" then Some(CashDeposit)
    else if s == "CASH_WITHDRAWAL" then Some(CashWithdrawal)
    else if s == "CASH_TRANSFER" then Some(CashTransfer)
    else None
  }

  /** Reads a rendered status back; "N/A" and any other string read as absent. */
  function ParseStatus(s: string): (r: Option<TxnStatus>)
    ensures r.Some? ==> StatusName(r.value) == s
  {
    if s == "PENDING" then Some(Pending)
    else if s == "APPROVED" then Some(Approved)
    else if s == "FRAUD" then Some(Fraud)
    else None
  }

  /** Reads a rendered account number back. */
  function ParseAccount(s: string): Option<string>
  {
    if s == NotAvailable then None else Some(s)
  }

  /** The response loses nothing the ledger distinguishes: the type, the
      status, the date and, as long as no account is numbered "N/A", which
      accounts took part can all be read back from it. */
  lemma {:induction false} ResponseRoundTrip(t: Txn)
    requires t.source.Some? ==> t.source.value != NotAvailable
    requires t.target.Some? ==> t.target.value != NotAvailable
    ensures var r := ToTransactionResponse(t);
      && ParseType(r.transactionType) == Some(t.txnType)
      && ParseStatus(r.transactionStatus) == Some(t.status)
      && r.transactionDate == Some(t.date)
      && ParseAccount(r.sourceAccountNumber) == t.source
      && ParseAccount(r.targetAccountNumber) == t.target
  {
    match t.txnType
    case CashDeposit =>
    case CashWithdrawal =>
    case CashTransfer =>
  }

  /** No enum name collides with the placeholder, so "N/A" in a response
      always means the value was null. */
  lemma NamesAreNotPlaceholder(t: TxnType, s: TxnStatus)
    ensures TypeName(t) != NotAvailable && StatusName(s) != NotAvailable
    ensures ParseType(NotAvailable).None? && ParseStatus(NotAvailable).None?
  {
  }
}
