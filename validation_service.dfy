/** `ValidationService`: the password-strength rules and the email format,
    with Java's `String.matches` semantics (the whole input must match; `.`
    matches any character except a line terminator). */
module ValidationService {
  import opened Entities

  /** The characters `.` does not match: \n, \r, NEL, LINE SEPARATOR and
      PARAGRAPH SEPARATOR. */
  predicate LineTerminator(c: char)
  {
    c == '\n' || c == '\r' || c == '\U{0085}' || c == '\U{2028}' || c == '\U{2029}'
  }

  predicate Upper(c: char) { 'A' <= c <= 'Z' }
  predicate Lower(c: char) { 'a' <= c <= 'z' }
  /** `\d` */
  predicate Digit(c: char) { '0' <= c <= '9' }
  /** `\w`; `\W` is its complement. */
  predicate WordChar(c: char) { Upper(c) || Lower(c) || Digit(c) || c == '_' }
  /** `\W` */
  predicate Special(c: char) { !WordChar(c) }
  /** `[\d\W]` */
  predicate DigitOrSpecial(c: char) { Digit(c) || Special(c) }
  /** `\s`: space, tab, newline, vertical tab, form feed, carriage return. */
  predicate Whitespace(c: char)
  {
    c == ' ' || c == '\t' || c == '\n' || c == '\U{000B}' || c == '\U{000C}' || c == '\r'
  }

  predicate NoLineTerminator(s: string)
  {
    forall k :: 0 <= k < |s| ==> !LineTerminator(s[k])
  }

  /** The six rules in the order the map holds them. */
  datatype PasswordRule = HasUpper | HasLower | NoWhitespace | HasDigitOrSpecial | HasDigit | HasSpecial

  const PasswordRules: seq<PasswordRule> := [HasUpper, HasLower, NoWhitespace, HasDigitOrSpecial, HasDigit, HasSpecial]

  function Message(rule: PasswordRule): string
  {
    match rule
    case HasUpper => "Password must contain at least one uppercase letter"
    case HasLower => "Password must contain at least one lowercase letter"
    case NoWhitespace => "Password cannot contain whitespace"
    case HasDigitOrSpecial => "Password must contain at least one digit and one special character"
    case HasDigit => "Password must contain at least one digit character"
    case HasSpecial => "Password must contain at least one special character"
  }

  /** Whether `s` matches `.*[C].*` as a whole, for the character class
      `inClass`: one position holds a class character and no other position
      holds a line terminator. */
  predicate SurroundedMatch(s: string, inClass: char -> bool)
  {
    exists k :: 0 <= k < |s| && inClass(s[k]) && forall j :: 0 <= j < |s| && j != k ==> !LineTerminator(s[j])
  }

  /** `String.matches` for each rule's regular expression. `^(?!.*\s).*$`
      needs the whole input to be `.*` (no line terminator) with no `\s`
      after any prefix of it. */
  predicate Matches(password: string, rule: PasswordRule)
  {
    match rule
    case HasUpper => SurroundedMatch(password, Upper)
    case HasLower => SurroundedMatch(password, Lower)
    case NoWhitespace => NoLineTerminator(password) && forall k :: 0 <= k < |password| ==> !Whitespace(password[k])
    case HasDigitOrSpecial => SurroundedMatch(password, DigitOrSpecial)
    case HasDigit => SurroundedMatch(password, Digit)
    case HasSpecial => SurroundedMatch(password, Special)
  }

  /** The position of the first rule `password` does not match. */
  function FirstFailure(password: string, rules: seq<PasswordRule>): (r: Option<nat>)
    ensures r.None? <==> forall i :: 0 <= i < |rules| ==> Matches(password, rules[i])
    ensures r.Some? ==> r.value < |rules| && !Matches(password, rules[r.value])
    ensures r.Some? ==> forall i :: 0 <= i < r.value ==> Matches(password, rules[i])
  {
    if rules == [] then None
    else if !Matches(password, rules[0]) then Some(0)
    else match FirstFailure(password, rules[1..])
      case None => None
      case Some(i) => Some(i + 1)
  }

  /** `validatePassword`: the message of the first rule that fails. */
  function ValidatePassword(password: string): (r: Outcome)
    ensures r.Pass? <==> forall i :: 0 <= i < |PasswordRules| ==> Matches(password, PasswordRules[i])
    ensures r.Fail? ==> exists i :: 0 <= i < |PasswordRules| && r.error == InvalidPassword(Message(PasswordRules[i]))
                                    && !Matches(password, PasswordRules[i])
                                    && forall j :: 0 <= j < i ==> Matches(password, PasswordRules[j])
  {
    match FirstFailure(password, PasswordRules)
    case None => Pass
    case Some(i) => Fail(InvalidPassword(Message(PasswordRules[i])))
  }

  /** The strength the class documentation promises: an uppercase letter, a
      lowercase letter, a digit and a special character, and no whitespace
      (nor any line terminator, which `.` refuses). */
  predicate StrongPassword(p: string)
  {
    && NoLineTerminator(p)
    && (forall k :: 0 <= k < |p| ==> !Whitespace(p[k]))
    && (exists k :: 0 <= k < |p| && Upper(p[k]))
    && (exists k :: 0 <= k < |p| && Lower(p[k]))
    && (exists k :: 0 <= k < |p| && Digit(p[k]))
    && (exists k :: 0 <= k < |p| && Special(p[k]))
  }

  /** Without line terminators, `.*[C].*` means "contains a C". */
  lemma SurroundedMatchWithoutTerminators(s: string, inClass: char -> bool)
    requires NoLineTerminator(s)
    ensures SurroundedMatch(s, inClass) <==> exists k :: 0 <= k < |s| && inClass(s[k])
  {
  }

  /** A line terminator anywhere defeats `.*[A-Z].*`. */
  lemma TerminatorFailsFirstRule(p: string, k: nat)
    requires k < |p| && LineTerminator(p[k])
    ensures !Matches(p, HasUpper)
  {
  }

  /** All six rules match exactly when each one does. */
  lemma AllRulesMatch(p: string)
    ensures (forall i :: 0 <= i < |PasswordRules| ==> Matches(p, PasswordRules[i]))
        <==> Matches(p, HasUpper) && Matches(p, HasLower) && Matches(p, NoWhitespace)
             && Matches(p, HasDigitOrSpecial) && Matches(p, HasDigit) && Matches(p, HasSpecial)
  {
    assert PasswordRules[0] == HasUpper && PasswordRules[1] == HasLower && PasswordRules[2] == NoWhitespace;
    assert PasswordRules[3] == HasDigitOrSpecial && PasswordRules[4] == HasDigit && PasswordRules[5] == HasSpecial;
  }

  /** A password passes exactly when it is strong. */
  lemma {:induction false} ValidatePasswordIsStrength(p: string)
    ensures ValidatePassword(p).Pass? <==> StrongPassword(p)
  {
    if NoLineTerminator(p) {
      SurroundedMatchWithoutTerminators(p, Upper);
      SurroundedMatchWithoutTerminators(p, Lower);
      SurroundedMatchWithoutTerminators(p, Digit);
      SurroundedMatchWithoutTerminators(p, Special);
      SurroundedMatchWithoutTerminators(p, DigitOrSpecial);
      AllRulesMatch(p);
    } else {
      var k :| 0 <= k < |p| && LineTerminator(p[k]);
      TerminatorFailsFirstRule(p, k);
      assert !Matches(p, PasswordRules[0]);
    }
  }

  /** A password with a line terminator is rejected with the uppercase
      message, whatever letters it holds. */
  lemma TerminatorReportedAsMissingUppercase(p: string, k: nat)
    requires k < |p| && LineTerminator(p[k])
    ensures ValidatePassword(p) == Fail(InvalidPassword(Message(HasUpper)))
  {
    TerminatorFailsFirstRule(p, k);
    assert !Matches(p, PasswordRules[0]);
  }

  /** The combined rule's message ("at least one digit and one special
      character") is given exactly when the first three rules pass and the
      password has neither a digit nor a special character; a password
      lacking only one of the two reaches the fifth or sixth rule. */
  lemma CombinedRuleMeansNeither(p: string)
    requires Matches(p, HasUpper) && Matches(p, HasLower) && Matches(p, NoWhitespace)
    ensures ValidatePassword(p) == Fail(InvalidPassword(Message(HasDigitOrSpecial)))
        <==> forall k :: 0 <= k < |p| ==> !Digit(p[k]) && WordChar(p[k])
  {
    SurroundedMatchWithoutTerminators(p, DigitOrSpecial);
    assert Matches(p, PasswordRules[0]) && Matches(p, PasswordRules[1]) && Matches(p, PasswordRules[2]);
    if forall k :: 0 <= k < |p| ==> !Digit(p[k]) && WordChar(p[k]) {
      assert !Matches(p, PasswordRules[3]);
      assert FirstFailure(p, PasswordRules) == Some(3);
    } else {
      assert Matches(p, PasswordRules[3]);
      assert Message(HasDigitOrSpecial) != Message(HasUpper);
      assert Message(HasDigitOrSpecial) != Message(HasDigit);
      assert Message(HasDigitOrSpecial) != Message(HasSpecial);
    }
  }

  /** A password without an uppercase letter always gets the uppercase
      message, whatever else is wrong with it. */
  lemma MissingUppercaseReportedFirst(p: string)
    requires forall k :: 0 <= k < |p| ==> !Upper(p[k])
    ensures ValidatePassword(p) == Fail(InvalidPassword(Message(HasUpper)))
  {
    assert !Matches(p, PasswordRules[0]);
  }

  /** Once the first three rules pass, a special character without a digit
      gets the digit message and a digit without a special character gets
      the special-character message. */
  lemma {:induction false} OneOfTwoMissing(p: string)
    requires Matches(p, HasUpper) && Matches(p, HasLower) && Matches(p, NoWhitespace)
    ensures (exists k :: 0 <= k < |p| && Special(p[k])) && (forall k :: 0 <= k < |p| ==> !Digit(p[k]))
            ==> ValidatePassword(p) == Fail(InvalidPassword(Message(HasDigit)))
    ensures (exists k :: 0 <= k < |p| && Digit(p[k])) && (forall k :: 0 <= k < |p| ==> !Special(p[k]))
            ==> ValidatePassword(p) == Fail(InvalidPassword(Message(HasSpecial)))
  {
    SurroundedMatchWithoutTerminators(p, Digit);
    SurroundedMatchWithoutTerminators(p, Special);
    SurroundedMatchWithoutTerminators(p, DigitOrSpecial);
    assert Matches(p, PasswordRules[0]) && Matches(p, PasswordRules[1]) && Matches(p, PasswordRules[2]);
    if (exists k :: 0 <= k < |p| && Special(p[k])) && (forall k :: 0 <= k < |p| ==> !Digit(p[k])) {
      assert Matches(p, PasswordRules[3]) && !Matches(p, PasswordRules[4]);
      assert FirstFailure(p, PasswordRules) == Some(4);
    }
    if (exists k :: 0 <= k < |p| && Digit(p[k])) && (forall k :: 0 <= k < |p| ==> !Special(p[k])) {
      assert Matches(p, PasswordRules[3]) && Matches(p, PasswordRules[4]) && !Matches(p, PasswordRules[5]);
      assert FirstFailure(p, PasswordRules) == Some(5);
    }
  }

  /** An underscore is a word character, so it does not count as special. */
  lemma UnderscoreIsNotSpecial()
    ensures ValidatePassword("Abcdef1_") == Fail(InvalidPassword(Message(HasSpecial)))
  {
    var p := "Abcdef1_";
    assert forall k :: 0 <= k < |p| ==> !Special(p[k]);
    assert Upper(p[0]) && Lower(p[1]) && Digit(p[6]);
    OneOfTwoMissing(p);
  }

  /** `[A-Za-z0-9._%+-]` */
  predicate LocalChar(c: char)
  {
    Upper(c) || Lower(c) || Digit(c) || c == '.' || c == '_' || c == '%' || c == '+' || c == '-'
  }

  /** `[A-Za-z0-9.-]` */
  predicate DomainChar(c: char)
  {
    Upper(c) || Lower(c) || Digit(c) || c == '.' || c == '-'
  }

  /** `[A-Za-z]` */
  predicate Letter(c: char) { Upper(c) || Lower(c) }

  /** The email pattern `^[A-Za-z0-9._%+-]+@[A-Za-z0-9.-]+\.[A-Za-z]{2,}$`
      matched against the whole input, with the `@` at `at` and the `\.` at
      `dot`. */
  predicate ShapeAt(s: string, at: nat, dot: nat)
  {
    && 1 <= at && at + 2 <= dot && dot + 3 <= |s| && s[at] == '@' && s[dot] == '.'
    && (forall k :: 0 <= k < at ==> LocalChar(s[k]))
    && (forall k :: at < k < dot ==> DomainChar(s[k]))
    && (forall k :: dot < k < |s| ==> Letter(s[k]))
  }

  /** Some split of `s` matches the pattern. */
  ghost predicate EmailShape(s: string)
  {
    exists at: nat, dot: nat :: ShapeAt(s, at, dot)
  }

  /** The first position of `c` in `s`. */
  function IndexOf(s: string, c: char): (r: Option<nat>)
    ensures r.Some? ==> r.value < |s| && s[r.value] == c && forall k :: 0 <= k < r.value ==> s[k] != c
    ensures r.None? ==> forall k :: 0 <= k < |s| ==> s[k] != c
  {
    if s == [] then None
    else if s[0] == c then Some(0)
    else match IndexOf(s[1..], c)
      case None => None
      case Some(i) => Some(i + 1)
  }

  /** The last position of `c` in `s`. */
  function LastIndexOf(s: string, c: char): (r: Option<nat>)
    ensures r.Some? ==> r.value < |s| && s[r.value] == c && forall k :: r.value < k < |s| ==> s[k] != c
    ensures r.None? ==> forall k :: 0 <= k < |s| ==> s[k] != c
  {
    if s == [] then None
    else if s[|s| - 1] == c then Some(|s| - 1)
    else LastIndexOf(s[..|s| - 1], c)
  }

  /** The pattern checked by splitting at the first `@` and the last `.`. */
  predicate IsEmail(s: string)
  {
    var at, dot := IndexOf(s, '@'), LastIndexOf(s, '.');
    at.Some? && dot.Some? && ShapeAt(s, at.value, dot.value)
  }

  /** Splitting at the first `@` and the last `.` decides the pattern: no
      local-part character is `@` and no top-level-domain letter is `.`. */
  lemma IsEmailMatchesPattern(s: string)
    ensures IsEmail(s) <==> EmailShape(s)
  {
    if EmailShape(s) {
      var at: nat, dot: nat :| ShapeAt(s, at, dot);
      var i, j := IndexOf(s, '@'), LastIndexOf(s, '.');
      assert s[at] == '@' && s[dot] == '.';
      assert i.value == at;
      assert j.value == dot;
    }
  }

  /** `validateEmail`. */
  function ValidateEmail(email: string): (r: Outcome)
    ensures r.Pass? <==> EmailShape(email)
    ensures r.Fail? ==> r.error == IllegalArgument("Invalid email: " + email)
  {
    IsEmailMatchesPattern(email);
    if IsEmail(email) then Pass else Fail(IllegalArgument("Invalid email: " + email))
  }

  /** The first documented example passes. */
  lemma PlainEmailPasses()
    ensures ValidateEmail("example@example.com").Pass?
  {
    assert ShapeAt("example@example.com", 7, 15);
  }

  /** The second documented example, with a dot in the local part, passes. */
  lemma DottedLocalPartPasses()
    ensures ValidateEmail("user.name@domain.co").Pass?
  {
    assert ShapeAt("user.name@domain.co", 9, 16);
  }

  /** The third documented example, with a subdomain, passes. */
  lemma SubdomainEmailPasses()
    ensures ValidateEmail("user_name@sub.domain.org").Pass?
  {
    assert ShapeAt("user_name@sub.domain.org", 9, 20);
  }

  /** No top-level domain is refused. */
  lemma EmailWithoutDotFails()
    ensures ValidateEmail("user@domain").Fail?
  {
    assert LastIndexOf("user@domain", '.') == None;
  }

  /** An empty local part is refused. */
  lemma EmailWithoutLocalPartFails()
    ensures ValidateEmail("@domain.com").Fail?
  {
    assert IndexOf("@domain.com", '@') == Some(0);
  }

  /** A one-letter top-level domain is refused. */
  lemma EmailWithShortDomainFails()
    ensures ValidateEmail("user@domain.c").Fail?
  {
    assert LastIndexOf("user@domain.c", '.') == Some(11);
  }
}
