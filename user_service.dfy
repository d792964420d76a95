/** `UserService`: registration (validation in a fixed order, then the user
    and its "Main" account saved together) and lookup by email. Password
    hashing is done by library code and enters the model as the function
    parameter `encode`; the random UUID as its text `uuid`. */
module UserService {
  import opened Entities
  import opened Repositories
  import opened ValidationService

  const MainAccountType: string := "Main"

  const EmailExistsError: Error := IllegalArgument("Email already exists")
  /** The unique account-number column refusing a number already stored. */
  const DuplicateAccountNumberError: Error := DataIntegrityViolation("Duplicate entry for accountNumber")

  datatype RegisterRequest = RegisterRequest(name: string, email: string, password: string)

  /** `validateRequest`: the email's format, then its uniqueness, then the
      password's strength; the first failure is reported. */
  function ValidateRequest(users: map<string, User>, request: RegisterRequest): (r: Outcome)
    ensures ValidateEmail(request.email).Fail? ==> r == ValidateEmail(request.email)
    ensures ValidateEmail(request.email).Pass? && request.email in users ==> r == Fail(EmailExistsError)
    ensures ValidateEmail(request.email).Pass? && request.email !in users ==> r == ValidatePassword(request.password)
  {
    var email := ValidateEmail(request.email);
    if email.Fail? then email
    else if request.email in users then Fail(EmailExistsError)
    else ValidatePassword(request.password)
  }

  /** A request is accepted exactly when its email has the required shape
      and is not registered, and its password is strong. */
  lemma ValidateRequestAccepts(users: map<string, User>, request: RegisterRequest)
    ensures ValidateRequest(users, request).Pass?
        <==> EmailShape(request.email) && request.email !in users && StrongPassword(request.password)
  {
    ValidatePasswordIsStrength(request.password);
  }

  predicate LowerHex(c: char) { '0' <= c <= '9' || 'a' <= c <= 'f' }

  /** The text of a `UUID`: 36 characters, lower-case hexadecimal digits with
      hyphens at positions 8, 13, 18 and 23. */
  predicate IsUuidText(s: string)
  {
    && |s| == 36
    && forall k :: 0 <= k < 36 ==> if k in {8, 13, 18, 23} then s[k] == '-' else LowerHex(s[k])
  }

  /** `generateAccountNumber`: the UUID text's first six characters, which
      are hexadecimal digits. */
  function GenerateAccountNumber(uuid: string): (r: string)
    requires IsUuidText(uuid)
    ensures |r| == 6 && r <= uuid
    ensures forall k :: 0 <= k < |r| ==> LowerHex(r[k])
  {
    uuid[..6]
  }

  /** `createUserEntity`, with the main account it will be linked to. */
  function CreateUserEntity(request: RegisterRequest, hashedPassword: string, mainNumber: string): (u: User)
    ensures u.name == request.name && u.email == request.email && u.hashedPassword == hashedPassword
    ensures u.mainAccount == Some(mainNumber)
  {
    User(request.name, request.email, hashedPassword, Some(mainNumber))
  }

  /** `createMainAccount`: a "Main" account owned by the user; the balance
      column's default is zero. */
  function CreateMainAccount(user: User, number: string): (a: Account)
    ensures a.number == number && a.owner == user.email
    ensures a.accountType == MainAccountType && a.balance == 0.0
  {
    Account(number, user.email, MainAccountType, 0.0)
  }

  /** `registerUser`: nothing is stored unless validation passes; the account
      number is not checked for collisions, so a number already stored makes
      the save fail. */
  method RegisterUser(db: Store, request: RegisterRequest, encode: string -> string, uuid: string) returns (r: Result<User>)
    requires db.Valid()
    requires IsUuidText(uuid)
    modifies db`users, db`accounts
    ensures db.Valid()
    ensures ValidateRequest(old(db.users), request).Fail? ==>
      r == Err(ValidateRequest(old(db.users), request).error) && db.users == old(db.users) && db.accounts == old(db.accounts)
    ensures ValidateRequest(old(db.users), request).Pass? && GenerateAccountNumber(uuid) in old(db.accounts) ==>
      r == Err(DuplicateAccountNumberError) && db.users == old(db.users) && db.accounts == old(db.accounts)
    ensures ValidateRequest(old(db.users), request).Pass? && GenerateAccountNumber(uuid) !in old(db.accounts) ==>
      var number := GenerateAccountNumber(uuid);
      var user := CreateUserEntity(request, encode(request.password), number);
      && r == Ok(user)
      && db.users == old(db.users)[request.email := user]
      && db.accounts == old(db.accounts)[number := CreateMainAccount(user, number)]
  {
    var valid := ValidateRequest(db.users, request);
    if valid.Fail? {
      return Err(valid.error);
    }
    var hashed := encode(request.password);
    var number := GenerateAccountNumber(uuid);
    var user := CreateUserEntity(request, hashed, number);
    var main := CreateMainAccount(user, number);
    var saved := db.SaveNewUser(user, main);
    r := if saved then Ok(user) else Err(DuplicateAccountNumberError);
  }

  /** `getUserByEmail`. */
  function GetUserByEmail(users: map<string, User>, email: string): (r: Result<User>)
    ensures r.Ok? <==> email in users
    ensures r.Ok? ==> r.value == users[email]
    ensures r.Err? ==> r.error == IllegalArgument("User not found with email: " + email)
  {
    if email in users then Ok(users[email]) else Err(IllegalArgument("User not found with email: " + email))
  }
}
