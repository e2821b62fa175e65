/**
 * The account mutations of the user resolver over the `user` table, the
 * request's session user id and the password-reset tokens kept in the
 * key-value store. Password hashing is the store's `hash` function, and a
 * password is accepted when its hash equals the stored one.
 */
module UserResolver {
  import opened Common
  import opened Validator

  /** A row of the `user` table; `password` holds the hash. */
  datatype User = User(id: Id, username: string, email: string, password: string)

  /** A user mutation's answer: a list of field errors, or the user. */
  datatype UserResponse = Failed(errors: seq<FieldError>) | Succeeded(user: User)

  const UsernameTaken := FieldError("username", "username is already taken")
  const NoSuchUser := FieldError("usernameOrEmail", "User does not exist")
  const WrongPassword := FieldError("password", "Incorrect password")
  const TokenInvalid := FieldError("token", "token is invalid or expired")
  const TokenUserGone := FieldError("token", "user no longer exists")

  /** The login identifier names this user: by email when it contains `@`, by username otherwise. */
  predicate Identifies(u: User, usernameOrEmail: string) {
    if '@' in usernameOrEmail then u.email == usernameOrEmail else u.username == usernameOrEmail
  }

  class AccountStore {
    var users: map<Id, User>
    var nextId: Id
    /** The user id held by the current request's session, if any. */
    var session: Option<Id>
    /** reset token |-> user id (the reset-token entries of the key-value store) */
    var tokens: map<string, Id>
    const hash: string -> string

    /** Keys match ids, the serial is ahead of every id, usernames and emails are unique. */
    ghost predicate Valid()
      reads this
    {
      && (forall id :: id in users ==> users[id].id == id && id < nextId)
      && (forall a, b :: a in users && b in users && users[a].username == users[b].username ==> a == b)
      && (forall a, b :: a in users && b in users && users[a].email == users[b].email ==> a == b)
    }

    constructor (hash: string -> string)
      ensures Valid() && this.hash == hash
      ensures users == map[] && nextId == 1 && session.None? && tokens == map[]
    {
      this.hash := hash;
      users, nextId, session, tokens := map[], 1, None, map[];
    }

    /** The `email` field: only the signed-in owner sees it, everyone else gets "". */
    function Email(user: User): (r: string)
      reads this
      ensures session == Some(user.id) ==> r == user.email
      ensures session != Some(user.id) ==> r == ""
    {
      if session == Some(user.id) then user.email else ""
    }

    /** An insert with this username or email would violate a unique constraint (code 23505). */
    predicate Taken(username: string, email: string)
      reads this
    {
      exists id :: id in users && (users[id].username == username || users[id].email == email)
    }

    /** The lookup of the user the login identifier names (user.ts:97-101). */
    method FindLogin(usernameOrEmail: string) returns (r: Option<Id>)
      requires Valid()
      ensures r.Some? ==> r.value in users && Identifies(users[r.value], usernameOrEmail)
      ensures r.None? <==> forall id :: id in users ==> !Identifies(users[id], usernameOrEmail)
    {
      if exists id :: id in users && Identifies(users[id], usernameOrEmail) {
        var id :| id in users && Identifies(users[id], usernameOrEmail);
        r := Some(id);
      } else {
        r := None;
      }
    }

    /** The lookup of the user with this email (user.ts:156). */
    method FindByEmail(email: string) returns (r: Option<Id>)
      requires Valid()
      ensures r.Some? ==> r.value in users && users[r.value].email == email
      ensures r.None? <==> forall id :: id in users ==> users[id].email != email
    {
      if exists id :: id in users && users[id].email == email {
        var id :| id in users && users[id].email == email;
        r := Some(id);
      } else {
        r := None;
      }
    }

    /**
     * `register`: validation first; then the insert, which fails on a taken
     * username or email (the serial still advances); on success the new
     * user is signed in.
     */
    method Register(username: string, email: string, password: string) returns (r: UserResponse)
      requires Valid()
      modifies this
      ensures Valid() && tokens == old(tokens)
      ensures ValidateRegister(username, email, password).Some? ==>
                && r == Failed(ValidateRegister(username, email, password).value)
                && users == old(users) && nextId == old(nextId) && session == old(session)
      // the failed insert has already drawn a value from the serial, which is not given back
      ensures ValidateRegister(username, email, password).None? && old(Taken(username, email)) ==>
                && r == Failed([UsernameTaken])
                && users == old(users) && nextId == old(nextId) + 1 && session == old(session)
      ensures ValidateRegister(username, email, password).None? && !old(Taken(username, email)) ==>
                && r == Succeeded(User(old(nextId), username, email, hash(password)))
                && users == old(users)[old(nextId) := r.user]
                && nextId == old(nextId) + 1
                && session == Some(r.user.id)
    {
      var errors := ValidateRegister(username, email, password);
      if errors.Some? {
        return Failed(errors.value);
      }
      if Taken(username, email) {
        nextId := nextId + 1;
        return Failed([UsernameTaken]);
      }
      var user := User(nextId, username, email, hash(password));
      users := users[nextId := user];
      nextId := nextId + 1;
      session := Some(user.id);
      r := Succeeded(user);
    }

    /**
     * `login`: an unknown identifier, then a wrong password, are reported
     * in that order; only a success changes the session.
     */
    method Login(usernameOrEmail: string, password: string) returns (r: UserResponse)
      requires Valid()
      modifies this`session
      ensures (forall id :: id in users ==> !Identifies(users[id], usernameOrEmail)) ==>
                r == Failed([NoSuchUser]) && session == old(session)
      ensures forall id :: id in users && Identifies(users[id], usernameOrEmail) ==>
                if users[id].password == hash(password) then r == Succeeded(users[id]) && session == Some(id)
                else r == Failed([WrongPassword]) && session == old(session)
    {
      var found := FindLogin(usernameOrEmail);
      if found.None? {
        return Failed([NoSuchUser]);
      }
      var user := users[found.value];
      if user.password != hash(password) {
        return Failed([WrongPassword]);
      }
      session := Some(user.id);
      r := Succeeded(user);
    }

    /**
     * `forgotPassword`: always true; a reset token for the user is stored
     * only when the email belongs to one. The token is supplied by the caller.
     */
    method ForgotPassword(email: string, token: string) returns (r: bool)
      requires Valid()
      modifies this`tokens
      ensures r
      ensures (forall id :: id in users ==> users[id].email != email) ==> tokens == old(tokens)
      ensures forall id :: id in users && users[id].email == email ==> tokens == old(tokens)[token := id]
    {
      var found := FindByEmail(email);
      if found.Some? {
        assert users[found.value].email == email;
        tokens := tokens[token := found.value];
        assert !(forall id :: id in users ==> users[id].email != email);
      }
      r := true;
    }

    /**
     * `changePassword`: checks the new password, then the token, then that
     * its user still exists. Only when all pass is the hash replaced, the
     * token consumed and the user signed in; the user row returned is the one
     * read before the update.
     */
    method ChangePassword(newPassword: string, token: string) returns (r: UserResponse)
      requires Valid()
      modifies this
      ensures Valid() && nextId == old(nextId)
      ensures ValidateChangePassword(newPassword).Some? ==>
                && r == Failed(ValidateChangePassword(newPassword).value)
                && users == old(users) && tokens == old(tokens) && session == old(session)
      ensures ValidateChangePassword(newPassword).None? && token !in old(tokens) ==>
                r == Failed([TokenInvalid]) && users == old(users) && tokens == old(tokens) && session == old(session)
      ensures ValidateChangePassword(newPassword).None? && token in old(tokens) && old(tokens)[token] !in old(users) ==>
                r == Failed([TokenUserGone]) && users == old(users) && tokens == old(tokens) && session == old(session)
      ensures ValidateChangePassword(newPassword).None? && token in old(tokens) && old(tokens)[token] in old(users) ==>
                var id := old(tokens)[token];
                && r == Succeeded(old(users)[id])
                && users == old(users)[id := old(users)[id].(password := hash(newPassword))]
                && tokens == old(tokens) - {token}
                && session == Some(id)
    {
      var errors := ValidateChangePassword(newPassword);
      if errors.Some? {
        return Failed(errors.value);
      }
      if token !in tokens {
        return Failed([TokenInvalid]);
      }
      var id := tokens[token];
      if id !in users {
        return Failed([TokenUserGone]);
      }
      var user := users[id];
      users := users[id := user.(password := hash(newPassword))];
      tokens := tokens - {token};
      session := Some(user.id);
      r := Succeeded(user);
    }
  }

  /** A freshly registered user can sign in with the same username and password. */
  method RegisterThenLogin(store: AccountStore, username: string, email: string, password: string)
    returns (registered: UserResponse, loggedIn: UserResponse)
    requires store.Valid()
    requires RegisterOk(username, email, password) && !store.Taken(username, email)
    modifies store
    ensures registered.Succeeded? && loggedIn == registered
    ensures store.session == Some(registered.user.id)
  {
    registered := store.Register(username, email, password);
    assert Identifies(store.users[registered.user.id], username);
    loggedIn := store.Login(username, password);
  }

  /** A reset token works once: the second use with the same token is refused. */
  method TokenIsSingleUse(store: AccountStore, token: string, first: string, second: string)
    returns (r1: UserResponse, r2: UserResponse)
    requires store.Valid()
    requires token in store.tokens && store.tokens[token] in store.users
    requires 4 <= |first| && 4 <= |second|
    modifies store
    ensures r1.Succeeded? && r2 == Failed([TokenInvalid])
    ensures r1.user.id in store.users && store.users[r1.user.id].password == store.hash(first)
  {
    r1 := store.ChangePassword(first, token);
    r2 := store.ChangePassword(second, token);
  }
}
