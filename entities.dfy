/** The JPA entities of the ledger, its two enums, and the exceptions the
    services throw, as values. Account and user references are held by key:
    an account by its account number, a user by its (unique) email. Clock
    readings are integer ticks in milliseconds since the epoch. */
module Entities {

  datatype Option<+T> = None | Some(value: T)

  /** An exception thrown by a service: its Java class and its message. */
  datatype Error =
    | IllegalArgument(message: string)
    | IllegalState(message: string)
    | InsufficientFunds(message: string)
    | InvalidAccount(message: string)
    | AccountNotFound(message: string)
    | UserNotFound(message: string)
    | InvalidCredentials(message: string)
    | InvalidPassword(message: string)
    | DataIntegrityViolation(message: string)   // a unique column rejected a save

  /** What a value-returning service call gives back. */
  datatype Result<+T> = Ok(value: T) | Err(error: Error)

  /** What a void service call gives back. */
  datatype Outcome = Pass | Fail(error: Error)

  datatype TxnType = CashDeposit | CashWithdrawal | CashTransfer

  datatype TxnStatus = Pending | Approved | Fraud

  /** `owner` is the owning user's email. */
  datatype Account = Account(number: string, owner: string, accountType: string, balance: real)

  /** The account type that earns interest and whose creation is logged. */
  const InvestType: string := "Invest"

  /** A stored transaction; `id` is the identity the store assigned, `date` the
      clock reading when the record was constructed. */
  datatype Txn = Txn(
    id: nat,
    amount: real,
    txnType: TxnType,
    status: TxnStatus,
    source: Option<string>,
    target: Option<string>,
    date: int)

  datatype InvestmentLog = InvestmentLog(action: string, account: string, timestamp: int)

  /** `mainAccount` is the number of the user's main account. */
  datatype User = User(name: string, email: string, hashedPassword: string, mainAccount: Option<string>)

  /** A stored JWT; `user` is the owner's email. */
  datatype Token = Token(
    token: string,
    revoked: bool,
    expired: bool,
    createdAt: int,
    expiresAt: int,
    user: string)
}
