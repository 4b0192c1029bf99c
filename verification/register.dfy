/** `POST /api/auth/register`: schema validation, the duplicate check, the
    hashed insert and the password-free reply. bcrypt's hash and the email
    check of the validation library are the parameters `hash` and `validEmail`. */
module Register {
  import opened Common
  import opened Seqs
  import opened Store

  datatype RegisterInput = RegisterInput(
    name: Option<string>,
    username: Option<string>,
    email: Option<string>,
    password: Option<string>)

  /** The stored account minus its password field. */
  datatype PublicUser = PublicUser(id: Id, name: string, username: string, email: string, image: Option<string>, role: Role)

  const Required := "Required"
  const NameTooShort := "Name must be at least 2 characters"
  const UsernameTooShort := "Username must be at least 3 characters"
  const UsernameBadChars := "Username must contain only letters, numbers, and underscores"
  const EmailInvalid := "Invalid email address"
  const PasswordTooShort := "Password must be at least 6 characters"
  const EmailTaken := "User with this email already exists"
  const UsernameTaken := "User with this username already exists"
  const RegistrationFailed := "Registration failed. Please check server logs for details."

  /** One character of the class `[a-zA-Z0-9_]`. */
  predicate UsernameChar(c: char) {
    ('a' <= c <= 'z') || ('A' <= c <= 'Z') || ('0' <= c <= '9') || c == '_'
  }

  /** The pattern `^[a-zA-Z0-9_]+$`. */
  predicate UsernamePattern(u: string) {
    |u| > 0 && forall i :: 0 <= i < |u| ==> UsernameChar(u[i])
  }

  /** The issues of one string field, in the order its checks are declared;
      a missing field reports only that it is required. */
  function NameIssues(name: Option<string>): seq<string> {
    if name.None? then [Required]
    else if |name.value| < 2 then [NameTooShort] else []
  }

  function UsernameIssues(username: Option<string>): seq<string> {
    if username.None? then [Required]
    else
      (if |username.value| < 3 then [UsernameTooShort] else [])
      + (if !UsernamePattern(username.value) then [UsernameBadChars] else [])
  }

  function EmailIssues(email: Option<string>, validEmail: string -> bool): seq<string> {
    if email.None? then [Required]
    else if !validEmail(email.value) then [EmailInvalid] else []
  }

  function PasswordIssues(password: Option<string>): seq<string> {
    if password.None? then [Required]
    else if |password.value| < 6 then [PasswordTooShort] else []
  }

  /** The issues of `registerSchema`, field by field in declaration order. */
  function Issues(b: RegisterInput, validEmail: string -> bool): seq<string> {
    NameIssues(b.name) + UsernameIssues(b.username) + EmailIssues(b.email, validEmail) + PasswordIssues(b.password)
  }

  /** The rules of the schema, stated field by field. */
  predicate Acceptable(b: RegisterInput, validEmail: string -> bool) {
    && b.name.Some? && |b.name.value| >= 2
    && b.username.Some? && |b.username.value| >= 3 && UsernamePattern(b.username.value)
    && b.email.Some? && validEmail(b.email.value)
    && b.password.Some? && |b.password.value| >= 6
  }

  /** The schema reports no issue exactly when every rule holds. */
  lemma IssuesEmptyIff(b: RegisterInput, validEmail: string -> bool)
    ensures Issues(b, validEmail) == [] <==> Acceptable(b, validEmail)
  {
  }

  /** The `where: { OR: [{ email }, { username }] }` of the duplicate check. */
  function ByEmailOrUsername(email: string, username: string): User -> bool {
    (u: User) => u.email == email || u.username == username
  }

  function Public(u: User): PublicUser {
    PublicUser(u.id, u.name, u.username, u.email, u.image, u.role)
  }

  /** The account a successful registration inserts: the password is kept
      only as its hash. The route sets no role or image; the account is
      assumed to get the database's defaults, role MEMBER and no image. */
  function NewAccount(b: RegisterInput, hash: string -> string, id: Id): User
    requires b.name.Some? && b.username.Some? && b.email.Some? && b.password.Some?
  {
    User(id, b.name.value, b.username.value, b.email.value, Some(hash(b.password.value)), None, MEMBER)
  }

  /** The handler. `body` is `None` when the request body is not JSON or
      is `null`; `pick` is the row `findFirst` returns when several accounts
      conflict; `readFault` is a database error in that duplicate lookup. */
  function Register(body: Option<RegisterInput>, s: Store, validEmail: string -> bool, hash: string -> string, pick: nat, readFault: bool, w: DbWrite): (o: Outcome<PublicUser>)
    ensures o.store == s || o.response.status == StatusCreated
    ensures body.None? ==> o.response == Error(StatusInternal, RegistrationFailed)
    ensures body.Some? && Issues(body.value, validEmail) != [] ==>
              o.response == Error(StatusBadRequest, Issues(body.value, validEmail)[0])
    ensures body.Some? && Acceptable(body.value, validEmail) && readFault ==>
              o == Outcome(Error(StatusInternal, RegistrationFailed), s)
    ensures o.response.status == StatusCreated <==>
              && body.Some? && Acceptable(body.value, validEmail) && !readFault
              && (forall u :: u in s.users ==> u.email != body.value.email.value && u.username != body.value.username.value)
              && !w.fault && w.ids(0) !in UserIds(s.users)
    ensures o.response.status == StatusCreated ==>
              && o.store == s.(users := s.users + [NewAccount(body.value, hash, w.ids(0))])
              && o.response == Json(StatusCreated, Public(NewAccount(body.value, hash, w.ids(0))))
  {
    if body.None? then Outcome(Error(StatusInternal, RegistrationFailed), s)
    else
      var b := body.value;
      var issues := Issues(b, validEmail);
      IssuesEmptyIff(b, validEmail);
      if issues != [] then Outcome(Error(StatusBadRequest, issues[0]), s)
      else if readFault then Outcome(Error(StatusInternal, RegistrationFailed), s)
      else
        match FindFirst(s.users, ByEmailOrUsername(b.email.value, b.username.value), pick)
        case Some(existing) =>
          if existing.email == b.email.value then Outcome(Error(StatusBadRequest, EmailTaken), s)
          else Outcome(Error(StatusBadRequest, UsernameTaken), s)
        case None =>
          var u := NewAccount(b, hash, w.ids(0));
          if w.fault || u.id in UserIds(s.users) then Outcome(Error(StatusInternal, RegistrationFailed), s)
          else Outcome(Json(StatusCreated, Public(u)), s.(users := s.users + [u]))
  }

  /** A name shorter than two characters is the first issue reported, so it
      is the message of the 400, and nothing is written. */
  lemma ShortNameRejected(b: RegisterInput, s: Store, validEmail: string -> bool, hash: string -> string, pick: nat, readFault: bool, w: DbWrite)
    requires b.name.Some? && |b.name.value| < 2
    ensures Register(Some(b), s, validEmail, hash, pick, readFault, w) == Outcome(Error(StatusBadRequest, NameTooShort), s)
  {
  }

  /** A username shorter than three characters, or with a character outside
      `[A-Za-z0-9_]`, is refused with 400 and nothing is written; when the
      name is fine, the message is the username's. */
  lemma BadUsernameRejected(b: RegisterInput, s: Store, validEmail: string -> bool, hash: string -> string, pick: nat, readFault: bool, w: DbWrite)
    requires b.username.Some? && (|b.username.value| < 3 || !UsernamePattern(b.username.value))
    ensures var o := Register(Some(b), s, validEmail, hash, pick, readFault, w);
            && o.store == s && o.response.status == StatusBadRequest
            && (NameIssues(b.name) == [] ==>
                  o.response.message == (if |b.username.value| < 3 then UsernameTooShort else UsernameBadChars))
  {
    assert UsernameIssues(b.username) != [];
  }

  /** An invalid email or a password shorter than six characters is refused
      with 400 and nothing is written. */
  lemma BadEmailOrPasswordRejected(b: RegisterInput, s: Store, validEmail: string -> bool, hash: string -> string, pick: nat, readFault: bool, w: DbWrite)
    requires (b.email.Some? && !validEmail(b.email.value)) || (b.password.Some? && |b.password.value| < 6)
    ensures var o := Register(Some(b), s, validEmail, hash, pick, readFault, w);
            o.store == s && o.response.status == StatusBadRequest
  {
    assert !Acceptable(b, validEmail);
  }

  /** An email nobody has, with a username somebody has: the username message,
      whichever conflicting row the lookup returns. */
  lemma UsernameConflictReported(b: RegisterInput, s: Store, validEmail: string -> bool, hash: string -> string, pick: nat, readFault: bool, w: DbWrite)
    requires Acceptable(b, validEmail) && !readFault
    requires forall u :: u in s.users ==> u.email != b.email.value
    requires exists u :: u in s.users && u.username == b.username.value
    ensures Register(Some(b), s, validEmail, hash, pick, readFault, w) == Outcome(Error(StatusBadRequest, UsernameTaken), s)
  {
    IssuesEmptyIff(b, validEmail);
    var u :| u in s.users && u.username == b.username.value;
    assert ByEmailOrUsername(b.email.value, b.username.value)(u);
  }

  /** When every conflicting account has the email, the email message is
      returned, whichever of them the lookup returns. */
  lemma EmailConflictReported(b: RegisterInput, s: Store, validEmail: string -> bool, hash: string -> string, pick: nat, readFault: bool, w: DbWrite)
    requires Acceptable(b, validEmail) && !readFault
    requires exists u :: u in s.users && u.email == b.email.value
    requires forall u :: u in s.users && u.username == b.username.value ==> u.email == b.email.value
    ensures Register(Some(b), s, validEmail, hash, pick, readFault, w) == Outcome(Error(StatusBadRequest, EmailTaken), s)
  {
    IssuesEmptyIff(b, validEmail);
    var u :| u in s.users && u.email == b.email.value;
    assert ByEmailOrUsername(b.email.value, b.username.value)(u);
  }

  /** With the email taken by one account and the username by another, the
      message depends on the row `findFirst` returns: both can be seen. */
  lemma ConflictMessageDependsOnRow(b: RegisterInput, s: Store, validEmail: string -> bool, hash: string -> string, readFault: bool, w: DbWrite, a: User, c: User)
    requires Acceptable(b, validEmail) && !readFault
    requires a in s.users && a.email == b.email.value
    requires c in s.users && c.username == b.username.value && c.email != b.email.value
    ensures exists pick: nat :: Register(Some(b), s, validEmail, hash, pick, readFault, w).response == Error(StatusBadRequest, EmailTaken)
    ensures exists pick: nat :: Register(Some(b), s, validEmail, hash, pick, readFault, w).response == Error(StatusBadRequest, UsernameTaken)
  {
    IssuesEmptyIff(b, validEmail);
    var p := ByEmailOrUsername(b.email.value, b.username.value);
    FindFirstReaches(s.users, p, a);
    var i: nat :| FindFirst(s.users, p, i) == Some(a);
    assert Register(Some(b), s, validEmail, hash, i, readFault, w).response == Error(StatusBadRequest, EmailTaken);
    FindFirstReaches(s.users, p, c);
    var j: nat :| FindFirst(s.users, p, j) == Some(c);
    assert Register(Some(b), s, validEmail, hash, j, readFault, w).response == Error(StatusBadRequest, UsernameTaken);
  }

  /** Appending an account whose id, email and username nobody has keeps
      all three unique. */
  lemma AppendUniqueUser(users: seq<User>, u: User)
    requires UniqueUsers(users)
    requires forall v :: v in users ==> v.id != u.id && v.email != u.email && v.username != u.username
    ensures UniqueUsers(users + [u])
  {
    var all := users + [u];
    assert forall i :: 0 <= i < |users| ==> all[i] == users[i] && users[i] in users;
  }

  /** Adding an account whose id, email and username nobody has keeps the
      store's integrity. */
  lemma AddAccountValid(s: Store, u: User)
    requires Valid(s)
    requires forall v :: v in s.users ==> v.id != u.id && v.email != u.email && v.username != u.username
    ensures Valid(s.(users := s.users + [u]))
  {
    AppendUniqueUser(s.users, u);
    assert UserIds(s.users) <= UserIds(s.users + [u]);
  }

  /** A registration keeps the store's integrity: ids, emails and usernames
      stay unique because of the duplicate check, not because of the insert. */
  lemma {:induction false} RegisterPreservesValid(body: Option<RegisterInput>, s: Store, validEmail: string -> bool, hash: string -> string, pick: nat, readFault: bool, w: DbWrite)
    requires Valid(s)
    ensures Valid(Register(body, s, validEmail, hash, pick, readFault, w).store)
  {
    var o := Register(body, s, validEmail, hash, pick, readFault, w);
    if o.response.status == StatusCreated {
      var u := NewAccount(body.value, hash, w.ids(0));
      assert forall v :: v in s.users ==> v.id != u.id by {
        assert forall v :: v in s.users ==> v.id in UserIds(s.users);
      }
      AddAccountValid(s, u);
    }
  }

  /** The account a 201 stores keeps the submitted name, username and email,
      stores the password only as its hash, and is returned without it. */
  lemma RegisteredAccount(b: RegisterInput, s: Store, validEmail: string -> bool, hash: string -> string, pick: nat, readFault: bool, w: DbWrite)
    requires Register(Some(b), s, validEmail, hash, pick, readFault, w).response.status == StatusCreated
    ensures var o := Register(Some(b), s, validEmail, hash, pick, readFault, w);
            var u := o.store.users[|s.users|];
            && |o.store.users| == |s.users| + 1
            && u.name == b.name.value && u.username == b.username.value && u.email == b.email.value
            && u.password == Some(hash(b.password.value))
            && u.role == MEMBER
            && o.response.value == PublicUser(u.id, u.name, u.username, u.email, u.image, u.role)
  {
  }

  /** Valid input that collides with an account is refused with 400 and
      nothing is written; the message is the email one exactly when the row
      the lookup returns has the submitted email. */
  lemma DuplicateRejected(b: RegisterInput, s: Store, validEmail: string -> bool, hash: string -> string, pick: nat, readFault: bool, w: DbWrite)
    requires Acceptable(b, validEmail) && !readFault
    requires exists u :: u in s.users && (u.email == b.email.value || u.username == b.username.value)
    ensures var o := Register(Some(b), s, validEmail, hash, pick, readFault, w);
            var found := FindFirst(s.users, ByEmailOrUsername(b.email.value, b.username.value), pick);
            && o.store == s
            && found.Some?
            && o.response == Error(StatusBadRequest, if found.value.email == b.email.value then EmailTaken else UsernameTaken)
  {
    IssuesEmptyIff(b, validEmail);
    var u :| u in s.users && (u.email == b.email.value || u.username == b.username.value);
    assert ByEmailOrUsername(b.email.value, b.username.value)(u);
  }
}
