/** Credential sign-in and the token-based session: the `authorize` decision
    chain of the credentials provider, and the `jwt` and `session` callbacks
    that carry the account's id and role from sign-in into every request.
    bcrypt's compare is the parameter `compare`; token signing and expiry are
    not modelled. */
module Auth {
  import opened Common
  import opened Seqs
  import opened Store

  datatype Credentials = Credentials(identifier: Option<string>, password: Option<string>)

  /** What a successful sign-in hands to the session layer: no password. */
  datatype Identity = Identity(id: Id, username: string, email: string, name: string, role: Role)

  /** The decoded claims of the session token. */
  datatype Token = Token(
    sub: Option<string>,
    name: Option<string>,
    email: Option<string>,
    id: Option<Id>,
    role: Option<Role>)

  datatype SessionUser = SessionUser(
    id: Option<Id>,
    name: Option<string>,
    email: Option<string>,
    role: Option<Role>)

  /** What `auth()` resolves for a request; `auth()` itself yields `None`
      when there is no valid token. */
  datatype Session = Session(user: Option<SessionUser>)

  /** `session?.user?.id`, when truthy: the caller every handler trusts. */
  function CallerId(session: Option<Session>): Option<Id> {
    if session.Some? && session.value.user.Some? && Truthy(session.value.user.value.id)
    then session.value.user.value.id
    else None
  }

  /** `session?.user?.name`, as a template literal renders it. */
  function CallerName(session: Option<Session>): string {
    if session.Some? && session.value.user.Some? && session.value.user.value.name.Some?
    then session.value.user.value.name.value
    else "undefined"
  }

  /** `session?.user` is present (the weaker check some server actions make). */
  predicate SignedIn(session: Option<Session>) {
    session.Some? && session.value.user.Some?
  }

  /** The `where: { OR: [{ email }, { username }] }` of the sign-in lookup. */
  function ByIdentifier(identifier: string): User -> bool {
    (u: User) => u.email == identifier || u.username == identifier
  }

  function IdentityOf(u: User): Identity {
    Identity(u.id, u.username, u.email, u.name, u.role)
  }

  predicate Provided(creds: Option<Credentials>) {
    creds.Some? && Truthy(creds.value.identifier) && Truthy(creds.value.password)
  }

  /** The account `u` would let these credentials in: it matches the
      identifier, has a stored hash, and the password compares equal to it. */
  predicate Admits(u: User, creds: Credentials, compare: (string, string) -> bool)
    requires Truthy(creds.identifier) && Truthy(creds.password)
  {
    && ByIdentifier(creds.identifier.value)(u)
    && Truthy(u.password)
    && compare(creds.password.value, u.password.value)
  }

  /** `authorize`: every failure, including an exception (`fault`) in the
      lookup or in the compare, is the same `None`. `pick` is the row
      `findFirst` returns when several accounts match. */
  function Authorize(users: seq<User>, creds: Option<Credentials>, compare: (string, string) -> bool, pick: nat, fault: bool): (r: Option<Identity>)
    ensures !Provided(creds) || fault ==> r.None?
    ensures r.Some? ==> exists u :: u in users && Admits(u, creds.value, compare) && r.value == IdentityOf(u)
  {
    if !Provided(creds) then None
    else if fault then None
    else
      match FindFirst(users, ByIdentifier(creds.value.identifier.value), pick)
      case None => None
      case Some(u) =>
        if !Truthy(u.password) then None
        else if !compare(creds.value.password.value, u.password.value) then None
        else Some(IdentityOf(u))
  }

  /** An identifier nobody has is refused, whatever `findFirst` would pick. */
  lemma UnknownIdentifierRefused(users: seq<User>, creds: Credentials, compare: (string, string) -> bool, pick: nat, fault: bool)
    requires Truthy(creds.identifier) && Truthy(creds.password)
    requires forall u :: u in users ==> !ByIdentifier(creds.identifier.value)(u)
    ensures Authorize(users, Some(creds), compare, pick, fault) == None
  {
  }

  /** A wrong password for a known identifier is refused with the very same
      answer as an unknown identifier: the caller cannot tell them apart. */
  lemma WrongPasswordRefused(users: seq<User>, creds: Credentials, compare: (string, string) -> bool, pick: nat, fault: bool)
    requires Truthy(creds.identifier) && Truthy(creds.password)
    requires forall u :: u in users && ByIdentifier(creds.identifier.value)(u) ==> !Admits(u, creds, compare)
    ensures Authorize(users, Some(creds), compare, pick, fault) == None
  {
  }

  /** Sign-in can succeed (for some choice of `findFirst`) exactly when some
      account admits the credentials and nothing raises. */
  lemma AuthorizeSucceedsIff(users: seq<User>, creds: Credentials, compare: (string, string) -> bool, fault: bool)
    requires Truthy(creds.identifier) && Truthy(creds.password)
    ensures (exists pick: nat :: Authorize(users, Some(creds), compare, pick, fault).Some?)
        <==> !fault && exists u :: u in users && Admits(u, creds, compare)
  {
    if !fault && exists u :: u in users && Admits(u, creds, compare) {
      var u :| u in users && Admits(u, creds, compare);
      FindFirstReaches(users, ByIdentifier(creds.identifier.value), u);
      var pick: nat :| FindFirst(users, ByIdentifier(creds.identifier.value), pick) == Some(u);
      assert Authorize(users, Some(creds), compare, pick, fault) == Some(IdentityOf(u));
    }
  }

  /** When exactly one account matches the identifier and the password
      checks out, sign-in yields that account's identity. */
  lemma AuthorizeUniqueMatch(users: seq<User>, creds: Credentials, compare: (string, string) -> bool, pick: nat, u: User)
    requires Truthy(creds.identifier) && Truthy(creds.password)
    requires u in users && Admits(u, creds, compare)
    requires forall v :: v in users && ByIdentifier(creds.identifier.value)(v) ==> v == u
    ensures Authorize(users, Some(creds), compare, pick, false) == Some(IdentityOf(u))
  {
    FindFirstUnique(users, ByIdentifier(creds.identifier.value), u, pick);
  }

  /** The `jwt` callback: at sign-in the user's id and role enter the token;
      afterwards the token passes through unchanged. */
  function Jwt(token: Token, user: Option<Identity>): (t: Token)
    ensures user.Some? ==> t.id == Some(user.value.id) && t.role == Some(user.value.role)
    ensures t.sub == token.sub && t.name == token.name && t.email == token.email
    ensures user.None? ==> t == token
  {
    if user.Some? then token.(role := Some(user.value.role), id := Some(user.value.id))
    else token
  }

  /** The `session` callback: the token's id and role are copied into the
      session's user, everything else is left alone. */
  function SessionCallback(session: Session, token: Option<Token>): (r: Session)
    ensures session.user.Some? && token.Some? ==>
              && r.user.Some?
              && r.user.value.id == token.value.id
              && r.user.value.role == token.value.role
              && r.user.value.name == session.user.value.name
              && r.user.value.email == session.user.value.email
    ensures session.user.None? || token.None? ==> r == session
  {
    if session.user.Some? && token.Some? then
      Session(Some(session.user.value.(id := token.value.id, role := token.value.role)))
    else session
  }

  /** `session` after `jwt` on a fresh sign-in: the request's caller is the
      signed-in account, with its role. */
  lemma {:induction false} SignInReachesSession(token: Token, user: Identity, session: Session)
    requires session.user.Some?
    requires user.id != ""
    ensures var s := SessionCallback(session, Some(Jwt(token, Some(user))));
            && CallerId(Some(s)) == Some(user.id)
            && s.user.value.role == Some(user.role)
  {
    var t := Jwt(token, Some(user));
    assert t.id == Some(user.id);
  }
}
