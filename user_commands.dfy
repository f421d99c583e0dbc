/**
 * The User service's commands on the signed-in user's account: creating a
 * user, updating its name or email (retrying when another writer got there
 * first), changing its password and deleting it, each behind the
 * FluentValidation validator the MediatR pipeline runs first.
 */
module UserCommands {
  import opened Common
  import opened Linq
  import opened Validation
  import opened UserStore

  const UsernameRequired: string := "A username is required"
  const UsernameMinimumLength: nat := 4
  const UsernameMaximumLength: nat := 50
  const EmailInvalid: string := "Supplied email is invalid"
  const EmailMinimumLength: nat := 4
  const EmailMaximumLength: nat := 100

  /**
   * The length messages as the constants classes build them. C# runs static
   * field initialisers in textual order, and each message is declared before
   * the two `int` bounds it interpolates, which still hold their default 0
   * when the message is formatted. The rules themselves read the bounds
   * later, once they are 4 and 50 (or 4 and 100).
   */
  const UsernameLength: string := LengthMessage("A username", 0, 0)
  const EmailLength: string := LengthMessage("An email", 0, 0)

  /** The messages the interpolation was meant to produce, naming the bounds the rules check. */
  const IntendedUsernameLength: string := LengthMessage("A username", UsernameMinimumLength, UsernameMaximumLength)
  const IntendedEmailLength: string := LengthMessage("An email", EmailMinimumLength, EmailMaximumLength)
  const UsernameNotUnique: string := "Your username needs to be unique."
  const EmailNotUnique: string := "Your email needs to be unique."

  /** The password rules; the empty-password message differs by one period between the two validators. */
  const CreatePasswordEmpty: string := "A password is required"
  const ChangePasswordEmpty: string := "A password is required."
  const PasswordShort: string := "Your password length must be at least 12."
  const PasswordMinimumLength: nat := 15
  const PasswordCapital: string := "Your password must contain at least one uppercase letter."
  const PasswordLower: string := "Your password must contain at least one lowercase letter."

  /** `string.IndexOf(c)`: the first position of `c`, or -1. */
  function IndexOf(s: string, c: char): (r: int)
    ensures -1 <= r < |s|
    ensures r == -1 <==> forall j :: 0 <= j < |s| ==> s[j] != c
    ensures r >= 0 ==> s[r] == c && forall j :: 0 <= j < r ==> s[j] != c
    decreases |s|
  {
    if s == [] then -1
    else if s[0] == c then 0
    else
      var k := IndexOf(s[1..], c);
      if k == -1 then -1 else k + 1
  }

  /** `string.LastIndexOf(c)`: the last position of `c`, or -1. */
  function LastIndexOf(s: string, c: char): (r: int)
    ensures -1 <= r < |s|
    ensures r == -1 <==> forall j :: 0 <= j < |s| ==> s[j] != c
    ensures r >= 0 ==> s[r] == c && forall j :: r < j < |s| ==> s[j] != c
    decreases |s|
  {
    if s == [] then -1
    else if s[|s| - 1] == c then |s| - 1
    else LastIndexOf(s[..|s| - 1], c)
  }

  /**
   * `EmailAddress(EmailValidationMode.AspNetCoreCompatible)`: the first '@'
   * is neither the first nor the last character and is also the last '@'.
   */
  predicate IsEmailAddress(s: Option<string>) {
    s.None? ||
    (var i := IndexOf(s.value, '@'); i > 0 && i != |s.value| - 1 && i == LastIndexOf(s.value, '@'))
  }

  /** An address passes exactly when it has one '@', with something on either side of it. */
  lemma EmailAddressShape(s: string)
    ensures IsEmailAddress(Some(s)) <==>
      exists i :: 0 < i < |s| - 1 && s[i] == '@' && forall j :: 0 <= j < |s| && j != i ==> s[j] != '@'
  {
    if IsEmailAddress(Some(s)) {
      var i := IndexOf(s, '@');
      assert 0 < i < |s| - 1 && s[i] == '@';
    }
  }

  /** A local part and a domain, neither empty nor holding an '@', make an address that passes. */
  lemma EmailAddressOf(local: string, domain: string)
    requires local != [] && domain != [] && '@' !in local && '@' !in domain
    ensures IsEmailAddress(Some(local + "@" + domain))
  {
    var s := local + "@" + domain;
    forall j | 0 <= j < |s| && j != |local|
      ensures s[j] != '@'
    {
      if j < |local| {
        assert s[j] == local[j];
      } else {
        assert s[j] == domain[j - |local| - 1];
      }
    }
    assert s[|local|] == '@';
    EmailAddressShape(s);
  }

  predicate IsDigit(c: char) {
    '0' <= c <= '9'
  }

  predicate IsDigits(s: string) {
    forall i :: 0 <= i < |s| ==> IsDigit(s[i])
  }

  /** The decimal text of `n`, as string interpolation formats a non-negative `int`. */
  function Decimal(n: nat): (s: string)
    ensures s != [] && IsDigits(s)
    decreases n
  {
    if n < 10 then [(48 + n) as char] else Decimal(n / 10) + [(48 + n % 10) as char]
  }

  /** The number a run of decimal digits denotes. */
  function DigitsValue(s: string): nat
    requires IsDigits(s)
    decreases |s|
  {
    if s == [] then 0 else DigitsValue(s[..|s| - 1]) * 10 + (s[|s| - 1] as int - 48)
  }

  /** Reading back the decimal text of `n` gives `n`: the text names the number. */
  lemma {:induction false} DigitsValueOfDecimal(n: nat)
    ensures DigitsValue(Decimal(n)) == n
    decreases n
  {
    var s := Decimal(n);
    if n >= 10 {
      assert s[..|s| - 1] == Decimal(n / 10);
      DigitsValueOfDecimal(n / 10);
    }
  }

  /** `$"{subject} needs to be between {min} and {max} characters."` */
  function LengthMessage(subject: string, min: nat, max: nat): string {
    subject + " needs to be between " + Decimal(min) + " and " + Decimal(max) + " characters."
  }

  /** The length of the run of digits `t` starts with. */
  function LeadingDigits(t: string): nat
    decreases |t|
  {
    if t == [] || !IsDigit(t[0]) then 0 else 1 + LeadingDigits(t[1..])
  }

  /** A run of digits followed by a non-digit is the whole leading run. */
  lemma {:induction false} DigitRunIsLeading(t: string, x: string)
    requires IsDigits(x) && |x| < |t| && t[..|x|] == x && !IsDigit(t[|x|])
    ensures LeadingDigits(t) == |x|
    decreases |x|
  {
    if x != [] {
      assert t[0] == x[0];
      assert t[1..][..|x| - 1] == x[1..];
      DigitRunIsLeading(t[1..], x[1..]);
    }
  }

  /**
   * Two runs of digits that start at the same place of the same text, each
   * followed by a non-digit, are the same run.
   */
  lemma DigitRunsAgree(m: string, k: nat, x: string, y: string)
    requires IsDigits(x) && IsDigits(y)
    requires k + |x| < |m| && m[k..k + |x|] == x && !IsDigit(m[k + |x|])
    requires k + |y| < |m| && m[k..k + |y|] == y && !IsDigit(m[k + |y|])
    ensures x == y
  {
    var t := m[k..];
    assert t[..|x|] == x && t[|x|] == m[k + |x|];
    assert t[..|y|] == y && t[|y|] == m[k + |y|];
    DigitRunIsLeading(t, x);
    DigitRunIsLeading(t, y);
  }

  /** Where the two numbers sit in a length message. */
  lemma LengthMessageLayout(subject: string, min: nat, max: nat)
    ensures var m := LengthMessage(subject, min, max);
      var k := |subject| + 21;
      var a, b := Decimal(min), Decimal(max);
      k + |a| + 5 + |b| < |m| &&
      m[k..k + |a|] == a && m[k + |a|] == ' ' &&
      m[k + |a| + 5..k + |a| + 5 + |b|] == b && m[k + |a| + 5 + |b|] == ' '
  {
    var a, b := Decimal(min), Decimal(max);
    var p := subject + " needs to be between ";
    var q := p + a + " and ";
    var m := LengthMessage(subject, min, max);
    assert |p| == |subject| + 21;
    assert m == q + b + " characters.";
    assert m == p + a + (" and " + b + " characters.");
    assert m[|p|..|p| + |a|] == a;
    assert m[|q|..|q| + |b|] == b;
  }

  /**
   * A length message names its bounds: two messages about the same subject
   * are equal exactly when they state the same minimum and maximum.
   */
  lemma LengthMessageStatesBounds(subject: string, min: nat, max: nat, min': nat, max': nat)
    ensures LengthMessage(subject, min, max) == LengthMessage(subject, min', max') <==> min == min' && max == max'
  {
    if LengthMessage(subject, min, max) == LengthMessage(subject, min', max') {
      var m := LengthMessage(subject, min, max);
      var k := |subject| + 21;
      LengthMessageLayout(subject, min, max);
      LengthMessageLayout(subject, min', max');
      DigitRunsAgree(m, k, Decimal(min), Decimal(min'));
      DigitRunsAgree(m, k + |Decimal(min)| + 5, Decimal(max), Decimal(max'));
      DigitsValueOfDecimal(min);
      DigitsValueOfDecimal(min');
      DigitsValueOfDecimal(max);
      DigitsValueOfDecimal(max');
    }
  }

  /**
   * As written, both length messages say "between 0 and 0", bounds no rule
   * checks.
   */
  lemma LengthMessagesAsWritten(min: nat, max: nat)
    ensures UsernameLength == LengthMessage("A username", min, max) <==> min == 0 && max == 0
    ensures EmailLength == LengthMessage("An email", min, max) <==> min == 0 && max == 0
  {
    LengthMessageStatesBounds("A username", 0, 0, min, max);
    LengthMessageStatesBounds("An email", 0, 0, min, max);
  }

  /**
   * A three-letter username is refused with the message formatted from the
   * defaults, "A username needs to be between 0 and 0 characters.".
   */
  lemma ShortUsernameMessageAsWritten()
    ensures UsernameFailures("username", Some("abc")) ==
      [ValidationFailure("username", LengthMessage("A username", 0, 0))]
  {
    assert Utf16Length("abc") == 3 by {
      assert "abc"[..2] == "ab" && "ab"[..1] == "a" && "a"[..0] == [];
    }
    assert !IsWhiteSpace("abc"[0]);
  }

  /**
   * The intended messages state exactly the bounds the length rules check,
   * and differ from the ones the program produces.
   */
  lemma IntendedLengthMessages(min: nat, max: nat)
    ensures IntendedUsernameLength == LengthMessage("A username", min, max) <==>
      min == UsernameMinimumLength && max == UsernameMaximumLength
    ensures IntendedEmailLength == LengthMessage("An email", min, max) <==>
      min == EmailMinimumLength && max == EmailMaximumLength
    ensures IntendedUsernameLength != UsernameLength && IntendedEmailLength != EmailLength
  {
    LengthMessageStatesBounds("A username", UsernameMinimumLength, UsernameMaximumLength, min, max);
    LengthMessageStatesBounds("An email", EmailMinimumLength, EmailMaximumLength, min, max);
    LengthMessageStatesBounds("A username", UsernameMinimumLength, UsernameMaximumLength, 0, 0);
    LengthMessageStatesBounds("An email", EmailMinimumLength, EmailMaximumLength, 0, 0);
  }

  /** `BeUniqueUsername` fails: a user already has that name (a null name matches no one). */
  predicate NameTaken(users: seq<User>, name: Option<string>) {
    name.Some? && exists i :: 0 <= i < |users| && users[i].name == name.value
  }

  /** `BeUniqueEmail` fails: a user already has exactly that email. */
  predicate EmailTaken(users: seq<User>, email: Option<string>) {
    email.Some? && exists i :: 0 <= i < |users| && users[i].email == email.value
  }

  /** The password policy both validators state. */
  predicate PasswordAccepted(p: string) {
    NotEmpty(Some(p)) && Utf16Length(p) >= PasswordMinimumLength && MatchesRange(Some(p), 'A', 'Z') && MatchesRange(Some(p), 'a', 'z')
  }

  /** The password rule chain; every rule runs and reports (the default cascade). */
  function PasswordFailures(property: string, p: string, emptyMessage: string): (r: seq<ValidationFailure>)
    ensures r == [] <==> PasswordAccepted(p)
    ensures forall i :: 0 <= i < |r| ==> r[i].propertyName == property
  {
    Rule(NotEmpty(Some(p)), property, emptyMessage) +
    Rule(HasMinimumLength(Some(p), PasswordMinimumLength), property, PasswordShort) +
    Rule(MatchesRange(Some(p), 'A', 'Z'), property, PasswordCapital) +
    Rule(MatchesRange(Some(p), 'a', 'z'), property, PasswordLower)
  }

  /**
   * The rule says 15 characters while its message says 12: a password of 12
   * to 14 characters with both cases is refused by that one rule alone.
   */
  lemma ShortPasswordRefused(p: string)
    requires 12 <= Utf16Length(p) < PasswordMinimumLength
    requires !IsWhiteSpace(p[0])
    requires MatchesRange(Some(p), 'A', 'Z') && MatchesRange(Some(p), 'a', 'z')
    ensures PasswordFailures("password", p, CreatePasswordEmpty) == [ValidationFailure("password", PasswordShort)]
  {
    assert NotEmpty(Some(p));
  }

  /** The username chain: required, then between 4 and 50 characters. */
  function UsernameFailures(property: string, name: Option<string>): (r: seq<ValidationFailure>)
    ensures r == [] <==> NotEmpty(name) && HasLength(name, UsernameMinimumLength, UsernameMaximumLength)
    ensures name.None? ==> r == [ValidationFailure(property, UsernameRequired)]
    ensures ValidationFailure(property, UsernameRequired) in r <==> !NotEmpty(name)
    ensures ValidationFailure(property, UsernameLength) in r <==> !HasLength(name, UsernameMinimumLength, UsernameMaximumLength)
    ensures forall f :: f in r ==> f.propertyName == property && f.errorMessage in {UsernameRequired, UsernameLength}
  {
    Rule(NotEmpty(name), property, UsernameRequired) +
    Rule(HasLength(name, UsernameMinimumLength, UsernameMaximumLength), property, UsernameLength)
  }

  /**
   * Lengths count UTF-16 code units: two emoji outside the Basic Multilingual
   * Plane make a username of length 4, which the length rule accepts.
   */
  lemma TwoEmojiUsernameAccepted()
    ensures UsernameFailures("Username", Some("\U{1F600}\U{1F600}")) == []
  {
    var s := "\U{1F600}\U{1F600}";
    assert s[..1] == "\U{1F600}" && s[..1][..0] == [];
    assert Utf16Length(s) == 4;
    assert !IsWhiteSpace(s[0]);
  }

  /** The email chain: an address, between 4 and 100 characters; a null email passes. */
  function EmailFailures(property: string, email: Option<string>): (r: seq<ValidationFailure>)
    ensures r == [] <==> IsEmailAddress(email) && HasLength(email, EmailMinimumLength, EmailMaximumLength)
    ensures email.None? ==> r == []
    ensures ValidationFailure(property, EmailInvalid) in r <==> !IsEmailAddress(email)
    ensures ValidationFailure(property, EmailLength) in r <==> !HasLength(email, EmailMinimumLength, EmailMaximumLength)
    ensures forall f :: f in r ==> f.propertyName == property && f.errorMessage in {EmailInvalid, EmailLength}
  {
    Rule(IsEmailAddress(email), property, EmailInvalid) +
    Rule(HasLength(email, EmailMinimumLength, EmailMaximumLength), property, EmailLength)
  }

  /** `CreateUserQueryValidator`, its rules in the order they are declared. */
  function CreateUserFailures(users: seq<User>, username: string, email: string, password: string): (r: seq<ValidationFailure>)
    ensures r == [] <==>
      !NameTaken(users, Some(username)) && !EmailTaken(users, Some(email)) &&
      NotEmpty(Some(username)) && UsernameMinimumLength <= Utf16Length(username) <= UsernameMaximumLength &&
      IsEmailAddress(Some(email)) && EmailMinimumLength <= Utf16Length(email) <= EmailMaximumLength &&
      PasswordAccepted(password)
    ensures forall f :: f in r ==> f.propertyName in {"username", "email", "password"}
  {
    Rule(!NameTaken(users, Some(username)), "username", UsernameNotUnique) +
    Rule(!EmailTaken(users, Some(email)), "email", EmailNotUnique) +
    UsernameFailures("username", Some(username)) +
    EmailFailures("email", Some(email)) +
    PasswordFailures("password", password, CreatePasswordEmpty)
  }

  /**
   * `UpdateUserCommandValidator` as written: `NotEmpty` runs on a null
   * username too, so the username is required even though the command makes
   * it optional.
   */
  function UpdateUserFailuresAsWritten(users: seq<User>, username: Option<string>, email: Option<string>): (r: seq<ValidationFailure>)
    ensures username.None? ==> ValidationFailure("Username", UsernameRequired) in r
  {
    Rule(!NameTaken(users, username), "Username", UsernameNotUnique) +
    Rule(!EmailTaken(users, email), "Email", EmailNotUnique) +
    UsernameFailures("Username", username) +
    EmailFailures("Email", email)
  }

  /** The username rules applied only to a username that was given, as the optional field means. */
  function UpdateUserFailures(users: seq<User>, username: Option<string>, email: Option<string>): (r: seq<ValidationFailure>)
    ensures r == [] <==>
      !NameTaken(users, username) && !EmailTaken(users, email) &&
      (username.Some? ==> NotEmpty(username) && UsernameMinimumLength <= Utf16Length(username.value) <= UsernameMaximumLength) &&
      IsEmailAddress(email) && HasLength(email, EmailMinimumLength, EmailMaximumLength)
    ensures username.Some? ==> r == UpdateUserFailuresAsWritten(users, username, email)
  {
    Rule(!NameTaken(users, username), "Username", UsernameNotUnique) +
    Rule(!EmailTaken(users, email), "Email", EmailNotUnique) +
    (if username.None? then [] else UsernameFailures("Username", username)) +
    EmailFailures("Email", email)
  }

  /**
   * As written, a command that changes only the email never reaches the
   * handler, whatever the email; with the username rules made conditional,
   * a valid unused email passes.
   */
  lemma EmailOnlyUpdate<T>(users: seq<User>, email: string, next: T)
    requires IsEmailAddress(Some(email)) && EmailMinimumLength <= Utf16Length(email) <= EmailMaximumLength
    requires !EmailTaken(users, Some(email))
    ensures Handle(Some(UpdateUserFailuresAsWritten(users, None, Some(email))), next).Invalid?
    ensures Handle(Some(UpdateUserFailures(users, None, Some(email))), next) == Handled(next)
  {
  }

  /** `ChangePasswordCommandValidator`. */
  function ChangePasswordFailures(password: string): (r: seq<ValidationFailure>)
    ensures r == [] <==> PasswordAccepted(password)
  {
    PasswordFailures("Password", password, ChangePasswordEmpty)
  }

  /** What a `SaveChangesAsync` does: saves, loses to a concurrent writer, or throws otherwise. */
  datatype SaveResult = Saved | ConcurrencyConflict(message: string) | SaveThrew(message: string)

  /** The predicate "is the current user" (a null id matches no one). */
  function IsUser(userId: Option<Guid>): User -> bool {
    (u: User) => userId == Some(u.id)
  }

  /** A command's answer and the users it leaves stored. */
  datatype CommandState<T> = CommandState(result: Result<T>, users: seq<User>)

  /**
   * `CreateUserQueryHandler.Handle`: the user built from the name, the email
   * as given and the password's hash, under the id its constructor drew.
   */
  function CreateUser(users: seq<User>, username: string, email: string, passwordHash: string, id: Guid,
                      save: SaveResult): (r: CommandState<Guid>)
    ensures r.result.Ok? <==> save.Saved?
    ensures r.result.Ok? ==> r.result.value == id && r.users == users + [NewUser(id, username, email, passwordHash)]
    ensures r.result.Err? ==> r.result.error == UnexpectedError(save.message) && r.users == users
  {
    if save.Saved? then CommandState(Ok(id), users + [NewUser(id, username, email, passwordHash)])
    else CommandState(Err(UnexpectedError(save.message)), users)
  }

  /** A created user under an id no one had is the one `SingleOrDefault` then finds by that id. */
  lemma CreatedUserFound(users: seq<User>, username: string, email: string, passwordHash: string, id: Guid)
    requires forall i :: 0 <= i < |users| ==> users[i].id != id
    ensures var after := CreateUser(users, username, email, passwordHash, id, Saved).users;
      SingleWhere(after, IsUser(Some(id))) == Match(|users|) && after[|users|].loginAttempts == 0
  {
    var after := CreateUser(users, username, email, passwordHash, id, Saved).users;
    assert forall k :: 0 <= k < |users| ==> after[k] == users[k];
    assert IsUser(Some(id))(after[|users|]);
  }

  /** `CreateUserQueryHandler.Handle` over the context; `hash` is the hashing service. */
  method CreateUserHandler(db: UserDatabase, hash: string -> string, username: string, email: string,
                           password: string, id: Guid, save: SaveResult) returns (r: Result<Guid>)
    modifies db
    ensures CommandState(r, db.users) == CreateUser(old(db.users), username, email, hash(password), id, save)
    ensures db.refreshTokens == old(db.refreshTokens)
  {
    var user := NewUser(id, username, email, hash(password));
    if !save.Saved? {
      return Err(UnexpectedError(save.message));
    }
    db.users := db.users + [user];
    r := Ok(user.id);
  }

  const UserNotFound: string := "User not found"
  const NameOrEmailRequired: string := "Either a username or email must be provided."
  const UpdateConflict: string := "The user was updated by another process. Please retry."

  /** The attempts `UpdateUserCommandHandler` makes before it gives up on a concurrent writer. */
  const MaxRetries: nat := 3

  /** How the saves of an update end: one is saved, one throws, or the attempts run out. */
  datatype Retried = Committed | GaveUp | Failed(message: string)

  /** The saves from attempt `k` on, where `saves(k)` is what the `k`-th save does. */
  function Retry(saves: nat -> SaveResult, k: nat): Retried
    requires k < MaxRetries
    decreases MaxRetries - k
  {
    match saves(k)
    case Saved => Committed
    case SaveThrew(m) => Failed(m)
    case ConcurrencyConflict(_) => if k + 1 >= MaxRetries then GaveUp else Retry(saves, k + 1)
  }

  /** The update gives up exactly when each of its three saves loses to another writer. */
  lemma GivesUpAfterThreeConflicts(saves: nat -> SaveResult)
    ensures Retry(saves, 0) == GaveUp <==>
      saves(0).ConcurrencyConflict? && saves(1).ConcurrencyConflict? && saves(2).ConcurrencyConflict?
  {
  }

  /** It commits exactly when some save among the first three succeeds after conflicts only. */
  lemma {:induction false} CommitsAfterConflicts(saves: nat -> SaveResult, k: nat)
    requires k < MaxRetries
    ensures Retry(saves, k) == Committed <==>
      exists n :: k <= n < MaxRetries && saves(n).Saved? && forall j :: k <= j < n ==> saves(j).ConcurrencyConflict?
    decreases MaxRetries - k
  {
    if saves(k).ConcurrencyConflict? && k + 1 < MaxRetries {
      CommitsAfterConflicts(saves, k + 1);
      if Retry(saves, k) == Committed {
        var n :| k + 1 <= n < MaxRetries && saves(n).Saved? && forall j :: k + 1 <= j < n ==> saves(j).ConcurrencyConflict?;
        assert forall j :: k <= j < n ==> saves(j).ConcurrencyConflict?;
      }
    }
  }

  /**
   * It fails with a save's message exactly when that save throws after
   * conflicts only, among the first three.
   */
  lemma {:induction false} FailsOnThrownSave(saves: nat -> SaveResult, k: nat, e: string)
    requires k < MaxRetries
    ensures Retry(saves, k) == Failed(e) <==>
      exists n :: k <= n < MaxRetries && saves(n) == SaveThrew(e) && forall j :: k <= j < n ==> saves(j).ConcurrencyConflict?
    decreases MaxRetries - k
  {
    if saves(k).ConcurrencyConflict? && k + 1 < MaxRetries {
      FailsOnThrownSave(saves, k + 1, e);
      if Retry(saves, k) == Failed(e) {
        var n :| k + 1 <= n < MaxRetries && saves(n) == SaveThrew(e) && forall j :: k + 1 <= j < n ==> saves(j).ConcurrencyConflict?;
        assert forall j :: k <= j < n ==> saves(j).ConcurrencyConflict?;
      }
    }
  }

  /**
   * For the one current user and a name or email to set, three conflicting
   * saves answer the conflict error, and a save that throws after conflicts
   * only answers the unexpected error with its message; neither changes the users.
   */
  lemma UpdateSaveErrors(users: seq<User>, userId: Option<Guid>, username: Option<string>, email: Option<string>,
                         saves: nat -> SaveResult, message: string, n: nat)
    requires SingleWhere(users, IsUser(userId)).Match? && !(IsNullOrEmpty(username) && IsNullOrEmpty(email))
    ensures var r := UpdateUser(users, userId, username, email, saves, message);
      (saves(0).ConcurrencyConflict? && saves(1).ConcurrencyConflict? && saves(2).ConcurrencyConflict? ==>
        r == CommandState(Err(ConflictError(UpdateConflict)), users)) &&
      (n < MaxRetries && saves(n).SaveThrew? && (forall j :: 0 <= j < n ==> saves(j).ConcurrencyConflict?) ==>
        r == CommandState(Err(UnexpectedError(saves(n).message)), users))
  {
    GivesUpAfterThreeConflicts(saves);
    if n < MaxRetries && saves(n).SaveThrew? {
      FailsOnThrownSave(saves, 0, saves(n).message);
    }
  }

  /** The user with the name and email the command gives; an empty field leaves its value. */
  function Updated(u: User, username: Option<string>, email: Option<string>): (v: User)
    ensures v == u.(name := v.name, email := v.email)
    ensures IsNullOrEmpty(username) ==> v.name == u.name
    ensures !IsNullOrEmpty(username) ==> v.name == username.value
    ensures !IsNullOrEmpty(email) ==> v.email == ToLower(email.value)
    ensures IsNullOrEmpty(email) ==> v.email == u.email
  {
    var named := if IsNullOrEmpty(username) then u else u.(name := username.value);
    if IsNullOrEmpty(email) then named else named.(email := ToLower(email.value))
  }

  /**
   * `UpdateUserCommandHandler.Handle` for the current user `userId`: `saves`
   * says what each attempt's save does and `message` is the exception's text
   * when the lookup finds two users.
   */
  function UpdateUser(users: seq<User>, userId: Option<Guid>, username: Option<string>, email: Option<string>,
                      saves: nat -> SaveResult, message: string): (r: CommandState<()>)
    ensures r.result.Err? ==> r.users == users
    ensures r.result.Ok? <==>
      SingleWhere(users, IsUser(userId)).Match? && !(IsNullOrEmpty(username) && IsNullOrEmpty(email)) &&
      Retry(saves, 0) == Committed
    ensures r.result.Ok? ==>
      var i := SingleWhere(users, IsUser(userId)).index;
      r.users == users[i := Updated(users[i], username, email)]
    ensures SingleWhere(users, IsUser(userId)).Ambiguous? ==> r.result == Err(UnexpectedError(message))
    ensures SingleWhere(users, IsUser(userId)).NoMatch? ==> r.result == Err(NotFoundError(UserNotFound))
    ensures SingleWhere(users, IsUser(userId)).Match? && IsNullOrEmpty(username) && IsNullOrEmpty(email) ==>
      r.result == Err(Error(Validation, NameOrEmailRequired, None))
    ensures SingleWhere(users, IsUser(userId)).Match? && !(IsNullOrEmpty(username) && IsNullOrEmpty(email)) ==>
      (Retry(saves, 0) == GaveUp ==> r.result == Err(ConflictError(UpdateConflict))) &&
      (Retry(saves, 0).Failed? ==> r.result == Err(UnexpectedError(Retry(saves, 0).message)))
  {
    var m := SingleWhere(users, IsUser(userId));
    if m.Ambiguous? then CommandState(Err(UnexpectedError(message)), users)
    else if m.NoMatch? then CommandState(Err(NotFoundError(UserNotFound)), users)
    else if IsNullOrEmpty(username) && IsNullOrEmpty(email) then
      CommandState(Err(Error(Validation, NameOrEmailRequired, None)), users)
    else
      match Retry(saves, 0)
      case Committed => CommandState(Ok(()), users[m.index := Updated(users[m.index], username, email)])
      case GaveUp => CommandState(Err(ConflictError(UpdateConflict)), users)
      case Failed(e) => CommandState(Err(UnexpectedError(e)), users)
  }

  /** `ToLowerInvariant` is idempotent: a lower-cased email stays as it is. */
  lemma {:induction false} ToLowerIdempotent(s: string)
    ensures ToLower(ToLower(s)) == ToLower(s)
  {
    var t := ToLower(s);
    assert forall i :: 0 <= i < |s| ==> ToLowerChar(t[i]) == t[i];
  }

  /**
   * A successful update changes only the current user, keeps its id, and
   * leaves a given email stored lower-cased.
   */
  lemma UpdateTouchesOnlyCurrentUser(users: seq<User>, userId: Option<Guid>, username: Option<string>,
                                     email: Option<string>, saves: nat -> SaveResult, message: string)
    requires UpdateUser(users, userId, username, email, saves, message).result.Ok?
    ensures var after := UpdateUser(users, userId, username, email, saves, message).users;
      |after| == |users| &&
      (forall k :: 0 <= k < |users| && Some(users[k].id) != userId ==> after[k] == users[k]) &&
      (forall k :: 0 <= k < |users| ==> after[k].id == users[k].id) &&
      (!IsNullOrEmpty(email) ==> forall k :: 0 <= k < |users| && Some(users[k].id) == userId ==> ToLower(after[k].email) == after[k].email)
  {
    var m := SingleWhere(users, IsUser(userId));
    if !IsNullOrEmpty(email) {
      ToLowerIdempotent(email.value);
    }
    forall k | 0 <= k < |users| && Some(users[k].id) == userId
      ensures k == m.index
    {
      assert IsUser(userId)(users[k]);
    }
  }

  /** `UpdateUserCommandHandler.Handle` over the context, with its retry loop. */
  method UpdateUserHandler(db: UserDatabase, userId: Option<Guid>, username: Option<string>, email: Option<string>,
                           saves: nat -> SaveResult, message: string) returns (r: Result<()>)
    modifies db
    ensures CommandState(r, db.users) == UpdateUser(old(db.users), userId, username, email, saves, message)
    ensures db.refreshTokens == old(db.refreshTokens)
  {
    var retryCount: nat := 0;
    while true
      invariant retryCount < MaxRetries
      invariant db.users == old(db.users) && db.refreshTokens == old(db.refreshTokens)
      invariant Retry(saves, retryCount) == Retry(saves, 0)
      decreases MaxRetries - retryCount
    {
      var m := SingleWhere(db.users, IsUser(userId));
      if m.Ambiguous? {
        return Err(UnexpectedError(message));
      }
      if m.NoMatch? {
        return Err(NotFoundError(UserNotFound));
      }
      if IsNullOrEmpty(username) && IsNullOrEmpty(email) {
        return Err(Error(Validation, NameOrEmailRequired, None));
      }
      var user := db.users[m.index];
      if !IsNullOrEmpty(username) {
        user := user.(name := username.value);
      }
      if !IsNullOrEmpty(email) {
        user := user.(email := ToLower(email.value));
      }
      var save := saves(retryCount);
      if save.Saved? {
        db.users := db.users[m.index := user];
        return Ok(());
      }
      if save.SaveThrew? {
        return Err(UnexpectedError(save.message));
      }
      retryCount := retryCount + 1;
      if retryCount >= MaxRetries {
        return Err(ConflictError(UpdateConflict));
      }
    }
  }

  const PasswordsDoNotMatch: string := "The passwords do not match."

  /**
   * `ChangePasswordCommandHandler.Handle` for the current user `userId`, as
   * written. `SingleAsync` throws unless exactly one user has the id, so an
   * unknown user is answered with the exception's `message`, never "User not
   * found". The old password is checked by hashing it again and comparing the
   * strings: `oldHash` is what that call of `Hash` returned, and `hash` gives
   * the new password's hash.
   */
  function ChangePasswordAsWritten(users: seq<User>, userId: Option<Guid>, password: string, oldPassword: Option<string>,
                                   oldHash: string, hash: string -> string, save: SaveResult, message: string)
    : (r: CommandState<()>)
    ensures r.result.Err? ==> r.users == users
    ensures userId.None? ==> r.result == Err(Error(Validation, "id", Some("id is required")))
    ensures userId.Some? && !SingleWhere(users, IsUser(userId)).Match? ==> r.result == Err(UnexpectedError(message))
    ensures r.result.Ok? ==>
      var i := SingleWhere(users, IsUser(userId)).index;
      save.Saved? &&
      (IsNullOrEmpty(oldPassword) || users[i].password == oldHash) &&
      r.users == users[i := users[i].(password := hash(password))]
  {
    if userId.None? then CommandState(Err(Error(Validation, "id", Some("id is required"))), users)
    else
      var m := SingleWhere(users, IsUser(userId));
      if !m.Match? then CommandState(Err(UnexpectedError(message)), users)
      else if !IsNullOrEmpty(oldPassword) && users[m.index].password != oldHash then
        CommandState(Err(Error(Validation, "oldPassword", Some(PasswordsDoNotMatch))), users)
      else if !save.Saved? then CommandState(Err(UnexpectedError(save.message)), users)
      else CommandState(Ok(()), users[m.index := users[m.index].(password := hash(password))])
  }

  /**
   * The change as intended: the old password is checked with the hashing
   * service's `validate` against the stored hash, as login does.
   */
  function ChangePassword(users: seq<User>, userId: Option<Guid>, password: string, oldPassword: Option<string>,
                          validate: (string, string) -> bool, hash: string -> string, save: SaveResult, message: string)
    : (r: CommandState<()>)
    ensures r.result.Err? ==> r.users == users
    ensures userId.None? ==> r.result == Err(Error(Validation, "id", Some("id is required")))
    ensures userId.Some? && !SingleWhere(users, IsUser(userId)).Match? ==> r.result == Err(UnexpectedError(message))
    ensures r.result.Ok? ==>
      var i := SingleWhere(users, IsUser(userId)).index;
      save.Saved? &&
      (IsNullOrEmpty(oldPassword) || validate(oldPassword.value, users[i].password)) &&
      r.users == users[i := users[i].(password := hash(password))]
  {
    if userId.None? then CommandState(Err(Error(Validation, "id", Some("id is required"))), users)
    else
      var m := SingleWhere(users, IsUser(userId));
      if !m.Match? then CommandState(Err(UnexpectedError(message)), users)
      else if !IsNullOrEmpty(oldPassword) && !validate(oldPassword.value, users[m.index].password) then
        CommandState(Err(Error(Validation, "oldPassword", Some(PasswordsDoNotMatch))), users)
      else if !save.Saved? then CommandState(Err(UnexpectedError(save.message)), users)
      else CommandState(Ok(()), users[m.index := users[m.index].(password := hash(password))])
  }

  /**
   * Given the old password, the change goes through exactly when it validates
   * against the stored hash (and the save succeeds); a wrong one changes nothing.
   */
  lemma OldPasswordGuardsChange(users: seq<User>, userId: Guid, password: string, oldPassword: string,
                                validate: (string, string) -> bool, hash: string -> string, message: string)
    requires oldPassword != []
    requires SingleWhere(users, IsUser(Some(userId))).Match?
    ensures var i := SingleWhere(users, IsUser(Some(userId))).index;
      var r := ChangePassword(users, Some(userId), password, Some(oldPassword), validate, hash, Saved, message);
      (r.result.Ok? <==> validate(oldPassword, users[i].password)) &&
      (r.result.Ok? ==> r.users[i].password == hash(password) && r.users[i].id == userId) &&
      (r.result.Err? ==> r.users == users)
  {
  }

  /** Without an old password, the change as written and as intended agree. */
  lemma ChangeWithoutOldPasswordAgrees(users: seq<User>, userId: Option<Guid>, password: string, oldPassword: Option<string>,
                                       oldHash: string, validate: (string, string) -> bool, hash: string -> string,
                                       save: SaveResult, message: string)
    requires IsNullOrEmpty(oldPassword)
    ensures ChangePasswordAsWritten(users, userId, password, oldPassword, oldHash, hash, save, message)
      == ChangePassword(users, userId, password, oldPassword, validate, hash, save, message)
  {
  }

  /**
   * The hashing service salts every call, so hashing the right old password
   * again gives a string other than the stored hash, though that password
   * validates against it: as written the change is refused with "The
   * passwords do not match.", where the intended check lets it through.
   */
  lemma RightOldPasswordRefusedAsWritten(users: seq<User>, userId: Guid, password: string, oldPassword: string,
                                         oldHash: string, validate: (string, string) -> bool, hash: string -> string,
                                         message: string)
    requires oldPassword != []
    requires SingleWhere(users, IsUser(Some(userId))).Match?
    requires var i := SingleWhere(users, IsUser(Some(userId))).index;
      validate(oldPassword, users[i].password) && oldHash != users[i].password
    ensures ChangePasswordAsWritten(users, Some(userId), password, Some(oldPassword), oldHash, hash, Saved, message).result
      == Err(Error(Validation, "oldPassword", Some(PasswordsDoNotMatch)))
    ensures ChangePassword(users, Some(userId), password, Some(oldPassword), validate, hash, Saved, message).result == Ok(())
  {
  }

  /**
   * `ChangePasswordCommandHandler.Handle` over the context, as written;
   * `oldHash` is what hashing the old password returned on this call.
   */
  method ChangePasswordHandler(db: UserDatabase, userId: Option<Guid>, password: string, oldPassword: Option<string>,
                               oldHash: string, hash: string -> string, save: SaveResult, message: string)
    returns (r: Result<()>)
    modifies db
    ensures CommandState(r, db.users) == ChangePasswordAsWritten(old(db.users), userId, password, oldPassword, oldHash, hash, save, message)
    ensures db.refreshTokens == old(db.refreshTokens)
  {
    if userId == None {
      return Err(Error(Validation, "id", Some("id is required")));
    }
    var m := SingleWhere(db.users, IsUser(userId));
    if !m.Match? {
      return Err(UnexpectedError(message));
    }
    var user := db.users[m.index];
    if !IsNullOrEmpty(oldPassword) && user.password != oldHash {
      return Err(Error(Validation, "oldPassword", Some(PasswordsDoNotMatch)));
    }
    user := user.(password := hash(password));
    if !save.Saved? {
      return Err(UnexpectedError(save.message));
    }
    db.users := db.users[m.index := user];
    r := Ok(());
  }

  const ValidUserIdRequired: string := "A valid user ID is required."
  const DeletedUserNotFound: string := "User not found."
  const DeleteConflict: string := "The user was modified or deleted by another process."
  const DeleteUnexpected: string := "An unexpected error occurred while deleting the user."

  /**
   * `DeleteUserCommandHandler.Handle` for the current user `userId`: the
   * user's row removed. Every exception but a concurrency conflict is
   * answered with one fixed message.
   */
  function DeleteUser(users: seq<User>, userId: Option<Guid>, save: SaveResult): (r: CommandState<()>)
    ensures r.result.Err? ==> r.users == users
    ensures userId.None? || userId == Some(EmptyGuid) ==> r.result == Err(Error(Validation, "id", Some(ValidUserIdRequired)))
    ensures r.result.Ok? <==>
      userId.Some? && userId.value != EmptyGuid && SingleWhere(users, IsUser(userId)).Match? && save.Saved?
    ensures r.result.Ok? ==> r.users == Where(users, (u: User) => Some(u.id) != userId)
    ensures userId.Some? && userId.value != EmptyGuid ==>
      var m := SingleWhere(users, IsUser(userId));
      (m.Ambiguous? ==> r.result == Err(UnexpectedError(DeleteUnexpected))) &&
      (m.NoMatch? ==> r.result == Err(NotFoundError(DeletedUserNotFound))) &&
      (m.Match? && save.ConcurrencyConflict? ==> r.result == Err(ConflictError(DeleteConflict))) &&
      (m.Match? && save.SaveThrew? ==> r.result == Err(UnexpectedError(DeleteUnexpected)))
  {
    if userId.None? || userId == Some(EmptyGuid) then CommandState(Err(Error(Validation, "id", Some(ValidUserIdRequired))), users)
    else
      var m := SingleWhere(users, IsUser(userId));
      if m.Ambiguous? then CommandState(Err(UnexpectedError(DeleteUnexpected)), users)
      else if m.NoMatch? then CommandState(Err(NotFoundError(DeletedUserNotFound)), users)
      else match save
        case Saved =>
          RemoveMatch(users, userId, m.index);
          CommandState(Ok(()), users[..m.index] + users[m.index + 1..])
        case ConcurrencyConflict(_) => CommandState(Err(ConflictError(DeleteConflict)), users)
        case SaveThrew(_) => CommandState(Err(UnexpectedError(DeleteUnexpected)), users)
  }

  /** Removing the only user with the id is filtering the users by it. */
  lemma RemoveMatch(users: seq<User>, userId: Option<Guid>, i: nat)
    requires SingleWhere(users, IsUser(userId)) == Match(i)
    ensures i < |users|
    ensures users[..i] + users[i + 1..] == Where(users, (u: User) => Some(u.id) != userId)
  {
    var p := (u: User) => Some(u.id) != userId;
    assert forall k :: 0 <= k < |users| && k != i ==> p(users[k]);
    WhereDropsOne(users, p, i);
  }

  /** `DeleteUserCommandHandler.Handle` over the context. */
  method DeleteUserHandler(db: UserDatabase, userId: Option<Guid>, save: SaveResult) returns (r: Result<()>)
    modifies db
    ensures CommandState(r, db.users) == DeleteUser(old(db.users), userId, save)
    ensures db.refreshTokens == old(db.refreshTokens)
  {
    if userId == None || userId == Some(EmptyGuid) {
      return Err(Error(Validation, "id", Some(ValidUserIdRequired)));
    }
    var m := SingleWhere(db.users, IsUser(userId));
    if m.Ambiguous? {
      return Err(UnexpectedError(DeleteUnexpected));
    }
    if m.NoMatch? {
      return Err(NotFoundError(DeletedUserNotFound));
    }
    if save.ConcurrencyConflict? {
      return Err(ConflictError(DeleteConflict));
    }
    if save.SaveThrew? {
      return Err(UnexpectedError(DeleteUnexpected));
    }
    db.users := db.users[..m.index] + db.users[m.index + 1..];
    r := Ok(());
  }
}
