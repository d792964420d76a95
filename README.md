# Ledger core of the finservice banking application

A Dafny model of the ledger logic of a Spring banking service. It covers:

- deposits, withdrawals and transfers on the caller's main account, with the fee schedule;
- the fraud rule, which re-marks historical transfers;
- the transaction history and its read model (`TransactionMapper`);
- the scheduled interest run on "Invest" accounts;
- opening further accounts, and registering users;
- password and email validation;
- login, logout and the JWT blacklist;
- extraction of the bearer token from an Authorization header.

The five JPA repositories are fields of one `Repositories.Store` class:

- accounts, keyed by their unique number;
- transactions, in insertion order, with identities counting up from 1;
- investment-account log entries;
- users, keyed by their unique email;
- tokens.

`Store.Valid()` states the database invariants every service method preserves. Services that change the database are methods over the store, with `modifies` frames naming the repositories they write. Each method's postcondition gives the whole new state. It ties that state to a specification function (`Moved`, `FraudSweep`, `MarkedFraud`, `WithInterest`, `Revoke`, `FirstFree`), and the properties of those functions are proved as lemmas.

Exceptions are modelled as values. `Entities.Error` carries the Java exception class and, for every exception the services throw, the exact message. The two unique-constraint violations raised by the persistence layer carry placeholder messages (see Left out). `Result` and `Outcome` carry the error paths.

Some inputs come from outside the code and enter as parameters:

- the clock is an integer number of milliseconds (`now`); a transfer reads it twice, once when the record is constructed (`created`) and once when the window query runs (`now`), with `created <= now`;
- the random draws are the texts the generator yields (`draws`, `uuid`);
- BCrypt hashing is `encode`;
- the authentication manager is `authenticate`;
- JWT generation is `generateToken`.

Money is an exact `real`.

Three places where the code and its own comments point different ways; the model follows the code:

- A deposit records the commission-adjusted amount (`TransactionService.java:46`), as the comment at `TransactionService.java:44` ("Transaction with the final amount") says. The withdrawal carries the same comment at line 77 but records the requested amount (line 79); the model records what each line sets.
- The fraud rule's window query sees the transfer just stored, although `TransactionService.java:126` adds that transfer to the matches as if the query had not found it (see Findings).
- `getTransactionHistory` returns every stored transaction, although the javadoc at `TransactionService.java:24` and `TransactionService.java:145` and the controller's at `AccountController.java:74` describe the history of the user (see Findings).

## Model

| member | source | states |
|---|---|---|
| Repositories.Filter | src/main/java/com/hackathon/finservice/Repositories/TransactionRepository.java:26 | a derived query returns exactly the rows meeting its condition, no more rows than the table |
| Repositories.FilterAppend | src/main/java/com/hackathon/finservice/Repositories/TransactionRepository.java:26 | a row appended to the table is returned after every earlier match, exactly when it matches |
| Repositories.FindRecentTransfers | src/main/java/com/hackathon/finservice/Repositories/TransactionRepository.java:36-39 | a record is returned iff it is stored, its source and target are the two numbers, and its date is strictly after `since` |
| Repositories.FindRecentTransfersAppend | src/main/java/com/hackathon/finservice/Repositories/TransactionRepository.java:36-39 | a newly saved record is found last, exactly when it meets the WHERE clause |
| Repositories.RecentTransfersQueryShape | src/main/java/com/hackathon/finservice/Repositories/TransactionRepository.java:36-39 | a record dated exactly `since` is excluded; a record without a source or target is never found; any matching record is found whatever its type and status |
| Repositories.FindBySourceOrTarget | src/main/java/com/hackathon/finservice/Repositories/TransactionRepository.java:19-26 | a record is returned iff it is stored and its source is the first number or its target the second |
| Repositories.FindToken | src/main/java/com/hackathon/finservice/Repositories/TokenRepository.java:23 | the result is the first position holding the token string; none iff no stored token has that string |
| Repositories.FindTokenIgnoresFlags | src/main/java/com/hackathon/finservice/Repositories/TokenRepository.java:23 | rewriting a stored token's flags leaves every lookup by string unchanged |
| Repositories.Store.SaveNewTxn | src/main/java/com/hackathon/finservice/Entities/Transaction.java:20-22 | a new record gets the next identity and is appended; the store stays valid |
| Repositories.Store.SaveTxnStatus | src/main/java/com/hackathon/finservice/Services/TransactionService.java:201-205 | saving a changed record rewrites only that record's status |
| Repositories.Store.SaveNewToken | src/main/java/com/hackathon/finservice/Entities/Token.java:24-25 | the unique token column: saved iff the string is not yet stored, and then appended; otherwise nothing changes |
| Repositories.Store.SaveToken | src/main/java/com/hackathon/finservice/Services/JWTBlacklistService.java:51-52 | saving a stored token replaces it at its position and keeps token strings unique |
| Repositories.Store.SaveNewAccount | src/main/java/com/hackathon/finservice/Entities/Account.java:20-21 | a new account is stored under its unique number and nothing else changes |
| Repositories.Store.SaveLog | src/main/java/com/hackathon/finservice/Services/ScheduledInvestmentInterestService.java:59 | a log entry is appended |
| Repositories.Store.SaveNewUser | src/main/java/com/hackathon/finservice/Entities/User.java:27-35 | the user and, by cascade, their main account are saved together iff both the email and the account number are new; otherwise nothing changes |
| Repositories.Store.SaveBalance | src/main/java/com/hackathon/finservice/Entities/Account.java:31-32 | saving an account changes only its balance |
| TransactionMapper.EnumToString | src/main/java/com/hackathon/finservice/Mappers/TransactionMapper.java:55-58 | an enum's name, or "N/A" for null |
| TransactionMapper.LocalDateTimeToLong | src/main/java/com/hackathon/finservice/Mappers/TransactionMapper.java:69-72 | a date is kept as its millisecond value; null stays null |
| TransactionMapper.ToTransactionResponse | src/main/java/com/hackathon/finservice/Mappers/TransactionMapper.java:38-43 | id and amount are copied, the enums are rendered by name, a present account number is copied, and a missing account becomes "N/A" |
| TransactionMapper.ResponseRoundTrip | src/main/java/com/hackathon/finservice/Mappers/TransactionMapper.java:38-43 | type, status, date and both accounts can be read back from the response, provided no account is numbered "N/A" |
| TransactionMapper.NamesAreNotPlaceholder | src/main/java/com/hackathon/finservice/Mappers/TransactionMapper.java:55-58 | no type or status name is "N/A", so "N/A" always means null |
| TransactionService.DepositCredit | src/main/java/com/hackathon/finservice/Services/TransactionService.java:41-42 | below 50000 the full amount is credited; from 50000 the amount less 2%; never negative nor more than a non-negative amount |
| TransactionService.WithdrawalDebit | src/main/java/com/hackathon/finservice/Services/TransactionService.java:71-72 | below 10000 the amount is debited; from 10000 the amount plus 1%; never less than the amount |
| TransactionService.GetMainAccountForUser | src/main/java/com/hackathon/finservice/Services/TransactionService.java:162-168 | succeeds iff the user exists, with a stored account that is their main one; otherwise "User not found" |
| TransactionService.VerifySufficientAccountBalance | src/main/java/com/hackathon/finservice/Services/TransactionService.java:214-219 | passes iff the amount does not exceed the balance; otherwise "Insufficient balance" |
| TransactionService.DetectFrequentTransfers | src/main/java/com/hackathon/finservice/Services/TransactionService.java:190-194 | returns exactly the stored transfers between the two accounts dated within the last 5 seconds |
| TransactionService.Moved | src/main/java/com/hackathon/finservice/Services/TransactionService.java:133-138 | source debited and target credited by the amount, nothing else changed, the sum of the two balances preserved; source equal to target is unchanged |
| TransactionService.MarkedFraud | src/main/java/com/hackathon/finservice/Services/TransactionService.java:201-206 | same length; each record differs at most in status; a record is FRAUD afterwards iff it was listed or already FRAUD; unlisted records are unchanged |
| TransactionService.FraudSweep | src/main/java/com/hackathon/finservice/Services/TransactionService.java:125-131 | when the amount is at least 80000 or a match exists, a record ends FRAUD iff it matched, is the new transfer, or was already FRAUD; otherwise only the new transfer changes, to APPROVED |
| TransactionService.MarkedFraudOnlyFlags | src/main/java/com/hackathon/finservice/Services/TransactionService.java:201-206 | marking changes no record other than by setting its status to FRAUD |
| TransactionService.MarkTransactionsAsFraud | src/main/java/com/hackathon/finservice/Services/TransactionService.java:201-206 | after the loop exactly the listed records are FRAUD, everything else unchanged |
| TransactionService.Deposit | src/main/java/com/hackathon/finservice/Services/TransactionService.java:40-62 | unknown user: error and no change; otherwise one APPROVED deposit of the commission-adjusted amount is recorded and credited to the main account; no record left PENDING |
| TransactionService.Withdraw | src/main/java/com/hackathon/finservice/Services/TransactionService.java:70-94 | unknown user or balance below the requested amount: error and no change; otherwise one APPROVED withdrawal of the requested amount is recorded and the surcharged amount debited |
| TransactionService.SweepOnlyFlags | src/main/java/com/hackathon/finservice/Services/TransactionService.java:125-131 | the rule leaves the new transfer APPROVED or FRAUD, and changes other records only to FRAUD |
| TransactionService.SettleTransfer | src/main/java/com/hackathon/finservice/Services/TransactionService.java:125-141 | statuses after the fraud rule and balances after the unconditional move of the amount |
| TransactionService.Transfer | src/main/java/com/hackathon/finservice/Services/TransactionService.java:103-142 | each error in order with no change; otherwise the transfer, dated `created`, is stored, the window query at `now` runs over the store including it, the fraud rule applies, and the money moves without a fee |
| TransactionService.TransferIntended | src/main/java/com/hackathon/finservice/Services/TransactionService.java:103-142 | as `Transfer`, with the window query over the records stored before the new transfer |
| TransactionService.AsWrittenQueryFindsItself | src/main/java/com/hackathon/finservice/Services/TransactionService.java:121-124 | the query run after the save finds every earlier match, plus the new transfer itself exactly when it runs less than 5 seconds after the transfer was constructed |
| TransactionService.SweepMarksMatches | src/main/java/com/hackathon/finservice/Services/TransactionService.java:124-128 | the marked identities are exactly those of the earlier records meeting the query, not the new one |
| TransactionService.TransferAlwaysFlagged | src/main/java/com/hackathon/finservice/Services/TransactionService.java:121-131 | as written, every transfer whose window query runs less than 5 seconds after its construction ends FRAUD, and exactly the earlier transfers in the window between the same accounts become FRAUD |
| TransactionService.SlowTransferAsIntended | src/main/java/com/hackathon/finservice/Services/TransactionService.java:121-124 | when the query runs 5 seconds or more after construction, the as-written query and fraud rule give what the corrected rule gives |
| TransactionService.IntendedFraudRule | src/main/java/com/hackathon/finservice/Services/TransactionService.java:124-131 | corrected rule: flagged iff the amount is at least 80000 or an earlier transfer in the window exists; the earlier ones become FRAUD only then; otherwise APPROVED |
| TransactionService.TransferKeepsSettled | src/main/java/com/hackathon/finservice/Services/TransactionService.java:125-141 | a transfer leaves no stored record PENDING |
| TransactionService.WithdrawalCanOverdraw | src/main/java/com/hackathon/finservice/Services/TransactionService.java:72-88 | for every withdrawal the funds check lets through, the balance ends negative iff the amount is at least 10000 and the balance is below the amount plus 1% |
| TransactionService.WithdrawalOverdrawExample | src/main/java/com/hackathon/finservice/Services/TransactionService.java:72-88 | a balance of 10000 passes a withdrawal of 10000 and ends at -100 |
| TransactionService.GetTransactionHistory | src/main/java/com/hackathon/finservice/Services/TransactionService.java:149-153 | one response per stored transaction, in store order |
| TransactionService.HistoryShowsOtherUsersTransfers | src/main/java/com/hackathon/finservice/Services/TransactionService.java:144-153 | as written, the history contains transactions the caller's account neither sent nor received |
| TransactionService.GetTransactionHistoryForAccount | src/main/java/com/hackathon/finservice/Services/TransactionService.java:144-153 | corrected history: no longer than the store, and every response is that of a stored transaction the caller's main account sent or received |
| TransactionService.AccountHistoryIsScoped | src/main/java/com/hackathon/finservice/Services/TransactionService.java:144-153 | corrected history: a transaction appears iff the caller's main account sent or received it |
| InvestmentInterestService.Accrued | src/main/java/com/hackathon/finservice/Services/ScheduledInvestmentInterestService.java:53-55 | new balance is 11/10 of the old; never lower for a non-negative balance; zero iff zero |
| InvestmentInterestService.WithInterest | src/main/java/com/hackathon/finservice/Services/ScheduledInvestmentInterestService.java:49-56 | one run keeps the set of account numbers |
| InvestmentInterestService.WithInterestEffect | src/main/java/com/hackathon/finservice/Services/ScheduledInvestmentInterestService.java:49-56 | only "Invest" accounts change, only in balance, by exactly 10%; zero balances stay zero |
| InvestmentInterestService.LogEntries | src/main/java/com/hackathon/finservice/Services/ScheduledInvestmentInterestService.java:59 | one "Interest Applied" entry per account, in order |
| InvestmentInterestService.AccrueOneMore | src/main/java/com/hackathon/finservice/Services/ScheduledInvestmentInterestService.java:53-56 | accruing one more listed account extends the partial run by that account |
| InvestmentInterestService.AllAccrued | src/main/java/com/hackathon/finservice/Services/ScheduledInvestmentInterestService.java:52-60 | once every "Invest" account is accrued, the run is complete |
| InvestmentInterestService.ListedNumbers | src/main/java/com/hackathon/finservice/Services/ScheduledInvestmentInterestService.java:49 | the listed accounts' numbers are exactly the "Invest" numbers |
| InvestmentInterestService.AccrueAccount | src/main/java/com/hackathon/finservice/Services/ScheduledInvestmentInterestService.java:53-59 | one loop step: the account is accrued and saved and its entry appended |
| InvestmentInterestService.FindAllByAccountType | src/main/java/com/hackathon/finservice/Repositories/AccountRepository.java:40 | returns exactly the stored accounts of the type, each number once |
| InvestmentInterestService.ApplyInterestToAllInvestmentAccounts | src/main/java/com/hackathon/finservice/Services/ScheduledInvestmentInterestService.java:47-61 | every "Invest" account accrued exactly once, the rest untouched, and one log entry per listed account in list order |
| AccountService.ValidateUser | src/main/java/com/hackathon/finservice/Services/AccountService.java:116-119 | the stored user iff the email is registered, otherwise the exact not-found error |
| AccountService.GetMainAccountByEmail | src/main/java/com/hackathon/finservice/Services/AccountService.java:104-107 | the user's stored main account iff the user exists |
| AccountService.GetAccountByIndex | src/main/java/com/hackathon/finservice/Services/AccountService.java:88-96 | given exactly the user's stored accounts as `findByUserId` lists them: unknown user first; then the account at the index iff the index is in range, and it is a stored account the user owns; otherwise "Account not found for the given index: <index>" |
| AccountService.OwnedAccountHasOneIndex | src/main/java/com/hackathon/finservice/Services/AccountService.java:88-96 | every stored account a registered user owns is returned for exactly one index |
| AccountService.FirstFree | src/main/java/com/hackathon/finservice/Services/AccountService.java:72-78 | the chosen number is not stored and is the lower-cased form of the first draw that is not taken |
| AccountService.FirstFreeShape | src/main/java/com/hackathon/finservice/Services/AccountService.java:72-78 | with alphanumeric draws of six characters, the number is six lower-case letters or digits |
| AccountService.GenerateUniqueAccountNumber | src/main/java/com/hackathon/finservice/Services/AccountService.java:72-78 | the do-while loop returns the first lower-cased draw not stored |
| AccountService.NewAccount | src/main/java/com/hackathon/finservice/Services/AccountService.java:53-59 | the new account has the given number, owner and type, and a zero balance |
| AccountService.CreationLog | src/main/java/com/hackathon/finservice/Services/AccountService.java:61-64 | one "Investment Account Created" entry iff the type is exactly "Invest" |
| AccountService.CreateNewAccount | src/main/java/com/hackathon/finservice/Services/AccountService.java:43-65 | unknown user, then a number that is not the main account: error and no change; otherwise a fresh account and its log entry are stored |
| AccountService.CreationAddsOneFreshAccount | src/main/java/com/hackathon/finservice/Services/AccountService.java:53-59 | creation adds exactly one new number and replaces no stored account |
| UserService.ValidateRequest | src/main/java/com/hackathon/finservice/Services/UserService.java:58-64 | email format first, then uniqueness, then password strength; the first failure is reported |
| UserService.ValidateRequestAccepts | src/main/java/com/hackathon/finservice/Services/UserService.java:58-64 | a request passes iff the email has the pattern's shape and is new and the password is strong |
| UserService.GenerateAccountNumber | src/main/java/com/hackathon/finservice/Services/UserService.java:110-112 | the first six characters of the UUID text, all lower-case hex digits |
| UserService.CreateUserEntity | src/main/java/com/hackathon/finservice/Services/UserService.java:83-89 | name, email and hashed password are copied; the main account is linked |
| UserService.CreateMainAccount | src/main/java/com/hackathon/finservice/Services/UserService.java:97-103 | a "Main" account owned by the user, with a zero balance |
| UserService.RegisterUser | src/main/java/com/hackathon/finservice/Services/UserService.java:37-48 | a validation error or a number collision stores nothing; otherwise the user and their main account are stored together |
| UserService.GetUserByEmail | src/main/java/com/hackathon/finservice/Services/UserService.java:121-124 | the stored user iff registered, otherwise the exact not-found error |
| ValidationService.FirstFailure | src/main/java/com/hackathon/finservice/Services/ValidationService.java:43-46 | the first rule the password does not match, with every earlier rule matching; none iff all match |
| ValidationService.ValidatePassword | src/main/java/com/hackathon/finservice/Services/ValidationService.java:31-48 | passes iff all six rules match; otherwise the message of the first failing rule |
| ValidationService.SurroundedMatchWithoutTerminators | src/main/java/com/hackathon/finservice/Services/ValidationService.java:35 | without line terminators, `.*[C].*` matches iff the text contains a C |
| ValidationService.TerminatorFailsFirstRule | src/main/java/com/hackathon/finservice/Services/ValidationService.java:35 | a line terminator anywhere defeats the uppercase rule |
| ValidationService.AllRulesMatch | src/main/java/com/hackathon/finservice/Services/ValidationService.java:35-40 | the rule table matches iff each of the six rules matches |
| ValidationService.ValidatePasswordIsStrength | src/main/java/com/hackathon/finservice/Services/ValidationService.java:31-48 | accepted iff upper, lower, digit and special character are present and no whitespace or line terminator |
| ValidationService.TerminatorReportedAsMissingUppercase | src/main/java/com/hackathon/finservice/Services/ValidationService.java:35 | a password with a line terminator is reported as lacking an uppercase letter |
| ValidationService.CombinedRuleMeansNeither | src/main/java/com/hackathon/finservice/Services/ValidationService.java:38 | the "digit and one special character" message is given only when neither is present |
| ValidationService.MissingUppercaseReportedFirst | src/main/java/com/hackathon/finservice/Services/ValidationService.java:35-40 | a password without an uppercase letter gets that message whatever else is wrong |
| ValidationService.OneOfTwoMissing | src/main/java/com/hackathon/finservice/Services/ValidationService.java:38-40 | with only one of digit and special character, the message names the missing one |
| ValidationService.UnderscoreIsNotSpecial | src/main/java/com/hackathon/finservice/Services/ValidationService.java:40 | `_` is a word character, so "Abcdef1_" lacks a special character |
| ValidationService.IndexOf | src/main/java/com/hackathon/finservice/Services/ValidationService.java:67 | the first position of the character, or none when absent |
| ValidationService.LastIndexOf | src/main/java/com/hackathon/finservice/Services/ValidationService.java:67 | the last position of the character, or none when absent |
| ValidationService.IsEmailMatchesPattern | src/main/java/com/hackathon/finservice/Services/ValidationService.java:67 | the executable check holds iff some '@' and final '.' split the text as the pattern demands |
| ValidationService.ValidateEmail | src/main/java/com/hackathon/finservice/Services/ValidationService.java:66-71 | passes iff the email has the pattern's shape; otherwise "Invalid email: <email>" |
| ValidationService.PlainEmailPasses | src/main/java/com/hackathon/finservice/Services/ValidationService.java:58 | "example@example.com" is accepted |
| ValidationService.DottedLocalPartPasses | src/main/java/com/hackathon/finservice/Services/ValidationService.java:59 | "user.name@domain.co" is accepted |
| ValidationService.SubdomainEmailPasses | src/main/java/com/hackathon/finservice/Services/ValidationService.java:60 | "user_name@sub.domain.org" is accepted |
| ValidationService.EmailWithoutDotFails | src/main/java/com/hackathon/finservice/Services/ValidationService.java:67 | a domain without a dot is refused |
| ValidationService.EmailWithoutLocalPartFails | src/main/java/com/hackathon/finservice/Services/ValidationService.java:67 | an empty local part is refused |
| ValidationService.EmailWithShortDomainFails | src/main/java/com/hackathon/finservice/Services/ValidationService.java:67 | a top-level domain of one letter is refused |
| JwtUtil.ExtractJwtToken | src/main/java/com/hackathon/finservice/Util/JwtUtil.java:70-75 | succeeds iff the header is present and starts with "Bearer " exactly, giving the rest; otherwise the header error |
| JwtUtil.ExtractJwtTokenRoundTrip | src/main/java/com/hackathon/finservice/Util/JwtUtil.java:70-75 | extracting from "Bearer " + token gives the token back |
| JwtUtil.ExtractJwtTokenSplits | src/main/java/com/hackathon/finservice/Util/JwtUtil.java:70-75 | an accepted header is the prefix followed by the result |
| JwtUtil.MalformedHeadersRejected | src/main/java/com/hackathon/finservice/Util/JwtUtil.java:71 | a missing header, "Bearer" without its space, and a lower-case scheme are refused |
| JwtBlacklistService.Revoke | src/main/java/com/hackathon/finservice/Services/JWTBlacklistService.java:43-53 | unknown token, then already revoked, are errors; a stored live token is always revoked, and then exactly its revoked flag is set |
| JwtBlacklistService.IsTokenInvalid | src/main/java/com/hackathon/finservice/Services/JWTBlacklistService.java:66-70 | an unknown token is not invalid; a stored one is invalid iff revoked |
| JwtBlacklistService.InvalidateToken | src/main/java/com/hackathon/finservice/Services/JWTBlacklistService.java:43-53 | the store changes exactly as `Revoke` says, with its error on failure |
| JwtBlacklistService.RevokeThenInvalid | src/main/java/com/hackathon/finservice/Services/JWTBlacklistService.java:43-70 | after a revocation the token reads invalid and a second revocation fails as already revoked |
| JwtBlacklistService.RevokeKeepsOthers | src/main/java/com/hackathon/finservice/Services/JWTBlacklistService.java:43-70 | revoking one token leaves every other token's validity unchanged |
| AuthService.NewToken | src/main/java/com/hackathon/finservice/Services/AuthService.java:129-137 | a live, unexpired token owned by the user that expires `jwt.expiration` minutes after creation |
| AuthService.SaveToken | src/main/java/com/hackathon/finservice/Services/AuthService.java:129-140 | unknown user or duplicate token string: error and no change; otherwise the new token is appended |
| AuthService.Login | src/main/java/com/hackathon/finservice/Services/AuthService.java:73-83 | unknown user, then bad credentials, then duplicate token are errors with no change; otherwise the generated token is stored and returned |
| AuthService.Logout | src/main/java/com/hackathon/finservice/Services/AuthService.java:91-93 | the same effect as invalidating the token |
| AuthService.FindTokenAppended | src/main/java/com/hackathon/finservice/Services/AuthService.java:139 | a token saved under a new string is found at the end |
| AuthService.LoginThenLogout | src/main/java/com/hackathon/finservice/Services/AuthService.java:73-93 | a stored login token reads valid; the first logout succeeds and invalidates it; a second logout fails |

## Left out

- Controllers, security configuration, the JWT filter, the DTO and response mappers other than `TransactionMapper`, and the exception handler are not part of this model.
- Concurrency and transactions: every operation runs alone and atomically. Lost updates between simultaneous requests are not modelled.
- Floating point: balances and amounts are exact reals, so `double` rounding in `amount * 0.98`, `amount * 1.01` and `balance * 0.10` is not modelled.
- The clock is the parameter `now`, and a transfer's construction time is `created`. `saveToken` calls `LocalDateTime.now()` twice; the model uses one tick for both, so `expiresAt - createdAt` is exactly the configured duration.
- `jwt.expiration` is added as minutes in `AuthService.saveToken` but as milliseconds in `JwtUtil.createToken` (`JwtUtil.java:39`). Token signing, parsing and expiry checks belong to the JWT library and are not part of this model.
- BCrypt hashing, the authentication manager, UUID generation and `RandomStringUtils` enter as parameters (`encode`, `authenticate`, `uuid`, `draws`).
- AccountService.GenerateUniqueAccountNumber: requires that some draw is free instead of looping forever, since an unbounded retry loop cannot be stated here.
- InvestmentInterestService.LogEntries: every entry of one run carries the single tick `now`, while each `InvestmentAccountLog` reads the clock in its own constructor (`InvestmentAccountLog.java:38`), so entries of one run may differ in their timestamps there.
- The `@Scheduled` timer is left out; `ApplyInterestToAllInvestmentAccounts` models one run. It returns the listed accounts only so that the order of the log entries can be stated; the Java method is void.
- The javadoc of the interest run says an error in one account does not stop the others. The code has no such handling, and no step of the modelled run can fail.
- The caller's identity from the security context is the parameter `email`.
- `getAccountByIndex` takes the list `findByUserId` returns, constrained to hold exactly the user's stored accounts, because the repository's order is not fixed by the code.
- TransactionService.GetTransactionHistory: takes `findAll()` (`TransactionService.java:150`) to return the records in insertion order; the code does not fix that order, so the model's order is one the repository may choose.
- AccountService.ToLower: folds ASCII letters only, while `toLowerCase()` (`AccountService.java:75`) uses the default locale; the draws are ASCII letters and digits, but under a Turkish locale 'I' would become a dotless 'ı', which the model does not capture.
- The messages of the two unique-constraint violations (`UserService.DuplicateAccountNumberError`, `AuthService.DuplicateTokenError`) are placeholders: the code builds no message for them, the database driver does.
- TransactionMapper.ResponseRoundTrip: holds only when no account is numbered "N/A", since the mapper uses that text for a missing account.
- The user's list of owned accounts (`User.accounts`) and database identities of accounts, users, tokens and log entries are not modelled; accounts are keyed by their unique number.

## Findings

| source | as written | input that shows it | evidently intended | confidence | as-written member | corrected member |
|---|---|---|---|---|---|---|
| src/main/java/com/hackathon/finservice/Services/TransactionService.java:121-126 | the new transfer is saved before `detectFrequentTransfers` runs, so the window query finds it whenever it runs less than 5 seconds after the transfer was constructed, and the rule then fires | any first transfer, e.g. 100.0 between two accounts with no earlier transfers, whose query runs within 5 seconds of its construction ends FRAUD | only earlier transfers between the same accounts in the last 5 seconds, or an amount of at least 80000, flag the transfer | not executed | TransactionService.TransferAlwaysFlagged | TransactionService.IntendedFraudRule |
| src/main/java/com/hackathon/finservice/Services/TransactionService.java:144-153 | the javadoc promises the history "for the authenticated user", but `findAll` returns every stored transaction | a transfer between two accounts of other users appears in the caller's history | only transactions the caller's main account sent or received | not executed | TransactionService.HistoryShowsOtherUsersTransfers | TransactionService.AccountHistoryIsScoped |
