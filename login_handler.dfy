/** The in-memory account registry: users by id, an index from lower-cased
    email to id, an ordered registration check, and a login that re-issues the
    stored record with a new last-login time. Failures are thrown errors; here
    they are the `Failure` side of a `Result`. */
module Accounts {
  import opened Wrappers
  import opened JsMap
  import opened JsString
  import opened Validation
  import opened Tasks
  import opened Users

  const InvalidEmail := "Invalid email format"
  const EmailExists := "Email already exists"
  const PasswordTooShort := "Password must be at least 8 characters long"
  const NoUppercase := "Password must contain at least one uppercase letter"
  const NoDigit := "Password must contain at least one number"
  const UserNotFound := "User not found"
  const InvalidCredentials := "Invalid credentials"

  /** `[^\s@]`. */
  predicate EmailChar(c: char) {
    !IsWhitespace(c) && c != '@'
  }

  /** `[^\s@]+`. */
  predicate IsRun(s: string) {
    |s| > 0 && forall i | 0 <= i < |s| :: EmailChar(s[i])
  }

  /** `[^\s@]+\.[^\s@]+`: a run with a dot that is neither its first nor its
      last character. */
  predicate IsDottedRun(s: string) {
    IsRun(s) && exists k | 0 < k < |s| - 1 :: s[k] == '.'
  }

  /** `isValidEmail(email)`: the pieces around `@` are exactly a run and a
      dotted run. */
  predicate IsValidEmail(email: string) {
    var parts := Split(email, '@');
    |parts| == 2 && IsRun(parts[0]) && IsDottedRun(parts[1])
  }

  /** The language of `/^[^\s@]+@[^\s@]+\.[^\s@]+$/`, position by position:
      one `@` that is not first, a `.` at least two places after it and not
      last, and no other `@` and no whitespace anywhere. */
  ghost predicate MatchesEmailPattern(e: string) {
    exists at, dot | 0 < at && at + 1 < dot < |e| - 1 ::
      && e[at] == '@' && e[dot] == '.'
      && forall i | 0 <= i < |e| && i != at :: EmailChar(e[i])
  }

  /** `isValidEmail` accepts exactly the strings the pattern describes. */
  lemma IsValidEmailMatchesPattern(e: string)
    ensures IsValidEmail(e) <==> MatchesEmailPattern(e)
  {
    if IsValidEmail(e) {
      AcceptedEmailMatches(e);
    }
    if MatchesEmailPattern(e) {
      var at, dot :| 0 < at && at + 1 < dot < |e| - 1
        && e[at] == '@' && e[dot] == '.'
        && forall i | 0 <= i < |e| && i != at :: EmailChar(e[i]);
      MatchingEmailAccepted(e, at, dot);
    }
  }

  /** An accepted email has the shape of the pattern. */
  lemma AcceptedEmailMatches(e: string)
    requires IsValidEmail(e)
    ensures MatchesEmailPattern(e)
  {
    var parts := Split(e, '@');
    var local, domain := parts[0], parts[1];
    JoinOfSplit(e, '@');
    assert parts[1..] == [domain];
    assert e == local + ['@'] + domain;
    var at := |local|;
    var k :| 0 < k < |domain| - 1 && domain[k] == '.';
    var dot := at + 1 + k;
    assert e[at] == '@' && e[dot] == '.';
    forall i | 0 <= i < |e| && i != at ensures EmailChar(e[i]) {
      if i < at {
        assert e[i] == local[i];
      } else {
        assert e[i] == domain[i - at - 1];
      }
    }
  }

  /** An email of the pattern's shape, with its `@` at `at` and a dot at
      `dot`, is accepted. */
  lemma MatchingEmailAccepted(e: string, at: int, dot: int)
    requires 0 < at && at + 1 < dot < |e| - 1
    requires e[at] == '@' && e[dot] == '.'
    requires forall i | 0 <= i < |e| && i != at :: EmailChar(e[i])
    ensures IsValidEmail(e)
  {
    var local, domain := e[..at], e[at + 1..];
    assert e == local + ['@'] + domain;
    assert IsRun(local) by {
      forall i | 0 <= i < |local| ensures EmailChar(local[i]) {
        assert local[i] == e[i];
      }
    }
    assert IsRun(domain) by {
      forall i | 0 <= i < |domain| ensures EmailChar(domain[i]) {
        assert domain[i] == e[at + 1 + i];
      }
    }
    SplitAround(local, domain, '@');
    SplitWithoutSeparator(local, '@');
    SplitWithoutSeparator(domain, '@');
    assert domain[dot - at - 1] == '.';
  }

  /** `/[A-Z]/.test(password)`. */
  predicate HasUppercase(password: string) {
    exists i | 0 <= i < |password| :: 'A' <= password[i] <= 'Z'
  }

  /** `/[0-9]/.test(password)`. */
  predicate HasDigit(password: string) {
    exists i | 0 <= i < |password| :: '0' <= password[i] <= '9'
  }

  /** The rules of `validateNewUser`, in the order they are checked, against
      the email index `emailToId`. */
  function AccountChecks(email: string, password: string, emailToId: map<string, string>): seq<Check> {
    [ Check(email != "" && IsValidEmail(email), InvalidEmail),
      Check(ToLower(email) !in emailToId, EmailExists),
      Check(password != "" && |password| >= 8, PasswordTooShort),
      Check(HasUppercase(password), NoUppercase),
      Check(HasDigit(password), NoDigit) ]
  }

  /** An email and password `validateNewUser` accepts. */
  predicate AcceptsNewUser(email: string, password: string, emailToId: map<string, string>) {
    && IsValidEmail(email)
    && ToLower(email) !in emailToId
    && |password| >= 8
    && HasUppercase(password)
    && HasDigit(password)
  }

  /** `validateNewUser(props)`: `None` when it returns, `Some(message)` when it
      throws. */
  function ValidateNewUser(email: string, password: string, emailToId: map<string, string>): (r: Option<string>)
    ensures r.None? <==> AcceptsNewUser(email, password, emailToId)
  {
    var checks := AccountChecks(email, password, emailToId);
    assert AcceptsNewUser(email, password, emailToId) <==> forall i | 0 <= i < |checks| :: checks[i].passes by {
      if AcceptsNewUser(email, password, emailToId) {
        assert email != "" by {
          assert |Split(email, '@')| == 2;
        }
        forall i | 0 <= i < |checks| ensures checks[i].passes {
        }
      } else if !(email != "" && IsValidEmail(email)) {
        assert !checks[0].passes;
      } else if ToLower(email) in emailToId {
        assert !checks[1].passes;
      } else if |password| < 8 {
        assert !checks[2].passes;
      } else if !HasUppercase(password) {
        assert !checks[3].passes;
      } else {
        assert !checks[4].passes;
      }
    }
    FirstFailure(checks)
  }

  /** The message thrown is that of the first broken rule, in the order email
      format, existing email, password length, uppercase letter, digit. */
  lemma RegistrationReportsFirstBrokenRule(email: string, password: string, emailToId: map<string, string>)
    ensures var r := ValidateNewUser(email, password, emailToId);
      && (r == Some(InvalidEmail) <==> !IsValidEmail(email))
      && (r == Some(EmailExists) <==> IsValidEmail(email) && ToLower(email) in emailToId)
      && (r == Some(PasswordTooShort) <==>
            IsValidEmail(email) && ToLower(email) !in emailToId && |password| < 8)
      && (r == Some(NoUppercase) <==>
            IsValidEmail(email) && ToLower(email) !in emailToId && |password| >= 8
            && !HasUppercase(password))
      && (r == Some(NoDigit) <==>
            IsValidEmail(email) && ToLower(email) !in emailToId && |password| >= 8
            && HasUppercase(password) && !HasDigit(password))
  {
    var checks := AccountChecks(email, password, emailToId);
    if email == "" {
      FirstFailureAt(checks, 0);
    } else if !IsValidEmail(email) {
      FirstFailureAt(checks, 0);
    } else if ToLower(email) in emailToId {
      FirstFailureAt(checks, 1);
    } else if |password| < 8 {
      FirstFailureAt(checks, 2);
    } else if !HasUppercase(password) {
      FirstFailureAt(checks, 3);
    } else if !HasDigit(password) {
      FirstFailureAt(checks, 4);
    }
  }

  /** An email whose lower-cased form is already indexed is never accepted,
      whatever its letter case. */
  lemma CaseVariantIsRejected(email: string, password: string, emailToId: map<string, string>)
    requires ToLower(email) in emailToId
    ensures ValidateNewUser(email, password, emailToId) in {Some(InvalidEmail), Some(EmailExists)}
  {
    RegistrationReportsFirstBrokenRule(email, password, emailToId);
  }

  /** Every user is stored under its own non-empty id; the index maps each
      stored user's lower-cased email to its id, and holds nothing else. */
  ghost predicate Consistent(users: OrderedMap<string, User>, emailToId: map<string, string>) {
    && users.Valid()
    && (forall id | id in users.entries :: id != "" && users.entries[id].id == id)
    && (forall e | e in emailToId ::
          emailToId[e] in users.entries && ToLower(users.entries[emailToId[e]].email) == e)
    && (forall id | id in users.entries ::
          ToLower(users.entries[id].email) in emailToId && emailToId[ToLower(users.entries[id].email)] == id)
  }

  /** Registering a user under an unused id and an unused lower-cased email
      keeps the two maps consistent. */
  lemma RegisterKeepsConsistent(users: OrderedMap<string, User>, emailToId: map<string, string>, u: User)
    requires Consistent(users, emailToId)
    requires u.id != "" && u.id !in users.entries && ToLower(u.email) !in emailToId
    ensures Consistent(users.Set(u.id, u), emailToId[ToLower(u.email) := u.id])
  {
    var users', index' := users.Set(u.id, u), emailToId[ToLower(u.email) := u.id];
    forall id | id in users'.entries
      ensures ToLower(users'.entries[id].email) in index'
      ensures index'[ToLower(users'.entries[id].email)] == id
    {
      if id != u.id {
        assert users'.entries[id] == users.entries[id];
      }
    }
  }

  /** Replacing a stored user by a record with the same id and email keeps the
      two maps consistent. */
  lemma ReplaceKeepsConsistent(users: OrderedMap<string, User>, emailToId: map<string, string>, u: User)
    requires Consistent(users, emailToId)
    requires u.id in users.entries && users.entries[u.id].email == u.email
    ensures Consistent(users.Set(u.id, u), emailToId)
  {
  }

  class LoginHandler {
    var users: OrderedMap<string, User>
    var emailToId: map<string, string>

    ghost predicate Valid()
      reads this
    {
      Consistent(users, emailToId)
    }

    /** `new LoginHandler()`. */
    constructor ()
      ensures Valid() && users == EmptyMap() && emailToId == map[]
    {
      users := EmptyMap();
      emailToId := map[];
    }

    /** No two accounts have emails that differ only in letter case. */
    lemma EmailsAreUniqueUpToCase(a: string, b: string)
      requires Valid() && a in users.entries && b in users.entries
      requires ToLower(users.entries[a].email) == ToLower(users.entries[b].email)
      ensures a == b
    {
    }

    /** `getUserByEmail(email)`: a lookup through the lower-cased index. */
    function GetUserByEmail(email: string): (r: Option<User>)
      reads this
      ensures r.Some? ==> ToLower(email) in emailToId && users.Get(emailToId[ToLower(email)]) == r
      ensures Valid() ==> (r.Some? <==> ToLower(email) in emailToId)
      ensures Valid() && r.Some? ==> ToLower(r.value.email) == ToLower(email)
    {
      var key := ToLower(email);
      if key in emailToId && emailToId[key] != "" then users.Get(emailToId[key]) else None
    }

    /** Looking a user up does not depend on the letter case of the email. */
    lemma LookupIgnoresCase(e1: string, e2: string)
      requires ToLower(e1) == ToLower(e2)
      ensures GetUserByEmail(e1) == GetUserByEmail(e2)
    {
    }

    /** `createAccount(props)`, with `now` for the clock and `freshId` for the
        new user's id. Identifiers handed out by the generator never repeat. */
    method CreateAccount(props: UserProps, now: Timestamp, freshId: string) returns (r: Result<User, string>)
      requires Valid() && props.id.None?
      requires freshId != "" && freshId !in users.entries
      modifies this
      ensures Valid()
      ensures var check := ValidateNewUser(props.email, props.password, old(emailToId));
        && (check.Some? ==>
              r == Failure(check.value) && users == old(users) && emailToId == old(emailToId))
        && (check.None? ==>
              var u := NewUser(props, now, freshId);
              && r == Success(u)
              && users == old(users).Set(u.id, u)
              && emailToId == old(emailToId)[ToLower(u.email) := u.id]
              && GetUserByEmail(props.email) == Some(u))
    {
      var check := ValidateNewUser(props.email, props.password, emailToId);
      if check.Some? {
        return Failure(check.value);
      }
      var u := NewUser(props, now, freshId);
      RegisterKeepsConsistent(users, emailToId, u);
      users := users.Set(u.id, u);
      emailToId := emailToId[ToLower(u.email) := u.id];
      r := Success(u);
    }

    /** `login(email, password)`, with `now` for the clock. */
    method Login(email: string, password: string, now: Timestamp) returns (r: Result<User, string>)
      requires Valid()
      modifies this
      ensures Valid()
      ensures emailToId == old(emailToId)
      ensures var found := old(GetUserByEmail(email));
        && (found.None? ==> r == Failure(UserNotFound) && users == old(users))
        && (found.Some? && !VerifyPassword(found.value, password) ==>
              r == Failure(InvalidCredentials) && users == old(users))
        && (found.Some? && VerifyPassword(found.value, password) ==>
              var u := found.value.(lastLogin := now);
              r == Success(u) && users == old(users).Set(u.id, u))
    {
      var key := ToLower(email);
      if key !in emailToId || emailToId[key] == "" {
        return Failure(UserNotFound);
      }
      var userId := emailToId[key];
      var user := users.Get(userId);
      if user.None? || !VerifyPassword(user.value, password) {
        return Failure(InvalidCredentials);
      }
      var updated := Refreshed(user.value, password, now, now);
      RefreshedKeepsIdentity(user.value, now, now, password);
      ReplaceKeepsConsistent(users, emailToId, updated);
      users := users.Set(userId, updated);
      r := Success(updated);
    }

    /** `getAllUsers()`: a new array of the users in registration order. */
    method GetAllUsers() returns (a: array<User>)
      requires Valid()
      ensures fresh(a) && a[..] == users.Values()
    {
      var values := users.Values();
      a := new User[|values|](i requires 0 <= i < |values| => values[i]);
    }
  }
}
