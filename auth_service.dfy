/**
 * The authentication service of the Prisma stack (src/services/auth_service.ts):
 * `login` and `create` over the user table, with field-scoped errors
 * (src/utils/form_error.ts) returned as values.
 */
module AuthService {
  import opened Wrappers
  import opened UserRepository
  import opened Crypto

  /** A field-scoped error: the name of the property and the message code. */
  datatype FormError = FormError(param: string, msg: string)

  const UsernameNotFound := FormError("username", "username_not_found")
  const PasswordNotMatch := FormError("password", "password_not_match")
  // The two codes below are spelled as the service spells them.
  const UsernameInUse := FormError("username", "username_alredy_in_use")
  const EmailInUse := FormError("email", "email_alredy_in_use")

  datatype LoginResult = LoginFailed(error: FormError) | LoggedIn(user: LoadedUser, token: string)

  /** `{ ...user, password: undefined }` */
  function WithoutPassword(u: LoadedUser): (r: LoadedUser)
    ensures r.password.None?
    ensures r.(password := u.password) == u
  {
    u.(password := None)
  }

  /**
   * `login(username, password)`: the user is looked up by username; an
   * unknown username fails before the password is checked, a failing
   * check fails with `password_not_match`, and otherwise the stored user
   * comes back without its password, with a token signed for its id.
   */
  function Login(users: seq<UserRecord>, roles: seq<RoleRecord>, oracles: Oracles, exp: int,
                 username: string, password: string): (r: LoginResult)
    ensures !Exists(users, UsernameColumn, StringValue(username)) ==> r == LoginFailed(UsernameNotFound)
    ensures forall i | IsFirstMatch(users, UsernameColumn, StringValue(username), i) ::
      && (r == LoginFailed(PasswordNotMatch) <==> !oracles.compare(password, users[i].password))
      && (r.LoggedIn? <==> oracles.compare(password, users[i].password))
      && (r.LoggedIn? ==>
            && r.user == WithoutPassword(Load(users[i], roles))
            && r.token == oracles.sign(Claims(exp, IdPayload(users[i].id))))
  {
    match FindOneBy(users, roles, UsernameColumn, StringValue(username))
    case None => LoginFailed(UsernameNotFound)
    case Some(user) =>
      if !oracles.compare(password, user.password.GetOr("")) then LoginFailed(PasswordNotMatch)
      else LoggedIn(WithoutPassword(user), GenerateJWT(oracles, user.id, exp))
  }

  /**
   * The errors `create` collects before inserting: the username error
   * exactly when the username is taken, the email error exactly when the
   * email is taken, the username one first; both checks always run.
   */
  function ConflictErrors(users: seq<UserRecord>, username: string, email: string): (errors: seq<FormError>)
    ensures UsernameInUse in errors <==> Exists(users, UsernameColumn, StringValue(username))
    ensures EmailInUse in errors <==> Exists(users, EmailColumn, StringValue(email))
    ensures forall e | e in errors :: e == UsernameInUse || e == EmailInUse
    ensures |errors| <= 2
    ensures |errors| == 2 ==> errors == [UsernameInUse, EmailInUse]
  {
    (if Exists(users, UsernameColumn, StringValue(username)) then [UsernameInUse] else []) +
    (if Exists(users, EmailColumn, StringValue(email)) then [EmailInUse] else [])
  }

  /** No two stored users share a username, and no two share an email. */
  ghost predicate UniqueCredentials(users: seq<UserRecord>) {
    forall i, j :: 0 <= i < j < |users| ==> users[i].username != users[j].username && users[i].email != users[j].email
  }

  /**
   * Appending a row whose username and email are both free keeps the
   * table free of duplicates: the invariant `create` maintains.
   */
  lemma {:induction false} AppendKeepsUnique(users: seq<UserRecord>, row: UserRecord)
    requires UniqueCredentials(users)
    requires ConflictErrors(users, row.username, row.email) == []
    ensures UniqueCredentials(users + [row])
  {
    var all := users + [row];
    forall i, j | 0 <= i < j < |all|
      ensures all[i].username != all[j].username && all[i].email != all[j].email
    {
      if j == |users| {
        assert all[i] == users[i];
        assert !Matches(users[i], UsernameColumn, StringValue(row.username));
        assert !Matches(users[i], EmailColumn, StringValue(row.email));
      }
    }
  }

  /**
   * Once a user has been inserted, registering the same username and email
   * again is refused, with both errors.
   */
  lemma {:induction false} RegisteringTwiceIsRefused(users: seq<UserRecord>, row: UserRecord)
    ensures ConflictErrors(users + [row], row.username, row.email) == [UsernameInUse, EmailInUse]
  {
    ExistsAfterAppend(users, row, UsernameColumn, StringValue(row.username));
    ExistsAfterAppend(users, row, EmailColumn, StringValue(row.email));
  }

  datatype CreateResult =
    | Refused(errors: seq<FormError>)
    | Created(user: LoadedUser, token: string)
    | Failed(error: DbError)

  /**
   * `create(username, password, email)`: collect the conflict errors and
   * return them, leaving the table unchanged, if there are any; otherwise
   * insert one row with the digest of the password and return it without
   * its password, with a token signed for the new id. A missing `default`
   * role makes the insertion fail.
   */
  method Create(store: UserStore, oracles: Oracles, exp: int, username: string, password: string, email: string)
    returns (r: CreateResult)
    requires store.Valid()
    modifies store
    ensures store.Valid()
    ensures var errors := ConflictErrors(old(store.users), username, email);
      errors != [] ==> r == Refused(errors) && store.users == old(store.users) && store.nextId == old(store.nextId)
    ensures ConflictErrors(old(store.users), username, email) == [] ==>
      match FindRoleByName(store.roles, "default")
      case Failure(e) => r == Failed(e) && store.users == old(store.users) && store.nextId == old(store.nextId)
      case Success(role) =>
        var row := UserRecord(old(store.nextId), username, email, oracles.hash(password), role.id);
        && store.users == old(store.users) + [row]
        && store.nextId == old(store.nextId) + 1
        && r == Created(WithoutPassword(Load(row, store.roles)), oracles.sign(Claims(exp, IdPayload(row.id))))
    ensures UniqueCredentials(old(store.users)) ==> UniqueCredentials(store.users)
  {
    var errors: seq<FormError> := [];
    var usernameExists := Exists(store.users, UsernameColumn, StringValue(username));
    if usernameExists {
      errors := errors + [UsernameInUse];
    }
    var emailExists := Exists(store.users, EmailColumn, StringValue(email));
    if emailExists {
      errors := errors + [EmailInUse];
    }
    if |errors| > 0 {
      return Refused(errors);
    }
    ghost var before := store.users;
    var inserted := store.Create(UserCreateDTO(username, oracles.hash(password), email));
    match inserted
    case Failure(e) =>
      r := Failed(e);
    case Success(user) =>
      if UniqueCredentials(before) {
        AppendKeepsUnique(before, store.users[|before|]);
      }
      r := Created(WithoutPassword(user), GenerateJWT(oracles, user.id, exp));
  }
}
