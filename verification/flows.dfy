/** Properties that span more than one handler: an account registered
    through the registration route can sign in and becomes the caller of
    later requests. */
module Flows {
  import opened Common
  import opened Store
  import opened Auth
  import opened Register

  /** A successful registration followed by a sign-in with the new username
      and the same password yields a session whose caller is the new account,
      with its role (MEMBER, the default the account is assumed to get).
      Assumed of the outside world: bcrypt's compare accepts a
      password against its own hash, a hash is never empty, the database
      never assigns the empty id, and no stored email is shaped like a
      username (every email has a character outside `[A-Za-z0-9_]`). */
  lemma {:induction false} RegisterThenSignIn(
    b: RegisterInput, s: Store, validEmail: string -> bool, hash: string -> string,
    compare: (string, string) -> bool, regPick: nat, regFault: bool, w: DbWrite, signInPick: nat,
    token: Token, session: Session)
    requires Register.Register(Some(b), s, validEmail, hash, regPick, regFault, w).response.status == StatusCreated
    requires compare(b.password.value, hash(b.password.value)) && hash(b.password.value) != ""
    requires w.ids(0) != ""
    requires forall u :: u in s.users ==> !UsernamePattern(u.email)
    requires session.user.Some?
    ensures var s' := Register.Register(Some(b), s, validEmail, hash, regPick, regFault, w).store;
            var account := NewAccount(b, hash, w.ids(0));
            var identity := Authorize(s'.users, Some(Credentials(b.username, b.password)), compare, signInPick, false);
            var resolved := SessionCallback(session, Some(Jwt(token, identity)));
            && identity == Some(IdentityOf(account))
            && CallerId(Some(resolved)) == Some(account.id)
            && resolved.user.value.role == Some(MEMBER)
  {
    var s' := Register.Register(Some(b), s, validEmail, hash, regPick, regFault, w).store;
    var account := NewAccount(b, hash, w.ids(0));
    assert s'.users == s.users + [account];
    var creds := Credentials(b.username, b.password);
    assert Truthy(creds.identifier) && Truthy(creds.password);
    assert account in s'.users && Admits(account, creds, compare);
    forall v | v in s'.users && ByIdentifier(b.username.value)(v)
      ensures v == account
    {
      if v in s.users {
        assert false;
      }
    }
    AuthorizeUniqueMatch(s'.users, creds, compare, signInPick, account);
    SignInReachesSession(token, IdentityOf(account), session);
  }

  /** The same with the new email as the identifier, the way the sign-in
      form is used: the caller is then the new account. Assumed: the email
      is not shaped like a username, while every stored username is (the
      registration schema requires it). */
  lemma {:induction false} RegisterThenSignInByEmail(
    b: RegisterInput, s: Store, validEmail: string -> bool, hash: string -> string,
    compare: (string, string) -> bool, regPick: nat, regFault: bool, w: DbWrite, signInPick: nat,
    token: Token, session: Session)
    requires Register.Register(Some(b), s, validEmail, hash, regPick, regFault, w).response.status == StatusCreated
    requires compare(b.password.value, hash(b.password.value)) && hash(b.password.value) != ""
    requires w.ids(0) != ""
    requires b.email.value != "" && !UsernamePattern(b.email.value)
    requires forall u :: u in s.users ==> UsernamePattern(u.username)
    requires session.user.Some?
    ensures var s' := Register.Register(Some(b), s, validEmail, hash, regPick, regFault, w).store;
            var account := NewAccount(b, hash, w.ids(0));
            var identity := Authorize(s'.users, Some(Credentials(b.email, b.password)), compare, signInPick, false);
            var resolved := SessionCallback(session, Some(Jwt(token, identity)));
            && identity == Some(IdentityOf(account))
            && CallerId(Some(resolved)) == Some(account.id)
            && resolved.user.value.role == Some(MEMBER)
  {
    var s' := Register.Register(Some(b), s, validEmail, hash, regPick, regFault, w).store;
    var account := NewAccount(b, hash, w.ids(0));
    assert s'.users == s.users + [account];
    var creds := Credentials(b.email, b.password);
    assert Truthy(creds.identifier) && Truthy(creds.password);
    assert account in s'.users && Admits(account, creds, compare);
    forall v | v in s'.users && ByIdentifier(b.email.value)(v)
      ensures v == account
    {
      if v in s.users {
        assert false;
      }
    }
    AuthorizeUniqueMatch(s'.users, creds, compare, signInPick, account);
    SignInReachesSession(token, IdentityOf(account), session);
  }
}
