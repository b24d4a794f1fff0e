/**
 * The TypeORM-era authentication controller
 * (src/controllers/auth_controller.ts) with its bcrypt and JWT helpers
 * (src/utils/crypt.ts) as oracles.
 */
module AuthController {
  import opened Wrappers
  import opened ClassValidator
  import opened UserEntity
  import opened Controller

  /**
   * `Utils`: `crypt` hashes, `validateCrypt(value, hash)` checks a value
   * against a hash, `jwt(json, exp)` signs `{exp, data: JSON.stringify(user)}`
   * where `json` is the user's serialized form.
   */
  datatype Crypt = Crypt(crypt: string -> string, validateCrypt: (string, string) -> bool,
                         jwt: (JsonObject, int) -> string)

  const InvalidCredentials := "Nom d'utilisateur ou mot de passe invalide"

  /** The token issued for a user: the JWT over its serialized (password-free) form. */
  function Token(c: Crypt, u: User, exp: int): string
    reads u
  {
    c.jwt(u.ToJSON(), exp)
  }

  /**
   * What is signed is exactly the user's public view: any object carrying
   * only public fields, with the user's id, username and email, is the one
   * the token is issued over; in particular it never holds the password.
   */
  lemma TokenSignsPublicView(c: Crypt, u: User, exp: int, j: JsonObject)
    requires j.Keys <= PublicFields
    requires Get(j, "id") == u.id && Get(j, "username") == u.username && Get(j, "email") == u.email
    ensures Token(c, u, exp) == c.jwt(j, exp)
    ensures "password" !in j
  {
    PublicViewsAgree(j, u.ToJSON());
  }

  /**
   * `login`, given the user `UserService.findBy('username', …)` found (or
   * null) and the request's password. An unknown user and a wrong password
   * give the same 400 reply; bcrypt throws when the password or the stored
   * hash is missing; otherwise 200 with the user's JSON and a token.
   */
  function Login(found: User?, password: Option<string>, c: Crypt, exp: int): (r: Result<Reply, string>)
    reads found
    ensures found == null ==> r == Success(Reply(400, Message(InvalidCredentials)))
    ensures found != null ==> (r.Failure? <==> password.None? || found.password.None?)
    ensures found != null && r.Success? ==>
      (r.value.status == 400 <==> !c.validateCrypt(password.value, found.password.value))
    ensures r.Success? && r.value.status != 400 ==>
      found != null && r.value == Reply(200, Session(found.ToJSON(), Token(c, found, exp)))
    ensures r.Success? ==> r.value.status in {200, 400}
    ensures r.Success? && r.value.status == 400 ==> r.value.body == Message(InvalidCredentials)
  {
    if found == null then HandleResult(Message(InvalidCredentials), 400)
    else if password.None? || found.password.None? then Failure("Error")
    else if !c.validateCrypt(password.value, found.password.value) then HandleResult(Message(InvalidCredentials), 400)
    else HandleResult(Session(found.ToJSON(), Token(c, found, exp)))
  }

  /** An unknown username and a wrong password cannot be told apart by the reply. */
  lemma LoginFailuresIndistinguishable(u: User, password: string, c: Crypt, exp: int)
    requires u.password.Some? && !c.validateCrypt(password, u.password.value)
    ensures Login(u, Some(password), c, exp) == Login(null, Some(password), c, exp)
  {
  }

  /** A successful login never puts the password in the reply. */
  lemma LoginHidesPassword(found: User?, password: Option<string>, c: Crypt, exp: int)
    requires Login(found, password, c, exp).Success?
    ensures var body := Login(found, password, c, exp).value.body;
      body.Session? ==> "password" !in body.user
  {
  }

  /**
   * `create`: a new `User` gets the request's username, the hash of its
   * password and its email; bcrypt throws on a missing password before
   * anything is validated. The entity is validated; errors give 422 with
   * one `{param, msg}` per error. A valid entity is saved (`saved` is the
   * generated uuid, or the insert's error) and answered with the default
   * 200. A failed insert lands in the same `catch`, where the 422 rewrite
   * maps over a non-array and throws.
   */
  method Create(username: Option<string>, password: Option<string>, email: Option<string>,
                c: Crypt, isEmail: string -> bool, saved: Result<string, string>, exp: int)
    returns (r: Result<Reply, string>, user: User?)
    ensures password.None? <==> user == null
    ensures password.None? ==> r.Failure?
    ensures user != null ==> fresh(user)
    ensures user != null ==>
      && user.username == username && user.email == email && user.role.None?
      && user.password == Some(c.crypt(password.value))
    ensures user != null ==>
      var errors := Validate(username, Some(c.crypt(password.value)), email, isEmail);
      && (errors != [] ==> r == Success(Reply(422, FieldErrors(AsFieldMessages(errors)))) && user.id.None?)
      && (errors == [] && saved.Failure? ==> r == Failure("TypeError"))
      && (errors == [] && saved.Success? ==>
            user.id == Some(saved.value) && r == Success(Reply(200, Session(user.ToJSON(), Token(c, user, exp)))))
  {
    if password.None? {
      return Failure("Error"), null;
    }
    user := new User();
    user.username := username;
    user.password := Some(c.crypt(password.value));
    user.email := email;
    var errors := Validate(user.username, user.password, user.email, isEmail);
    assert errors == Validate(username, Some(c.crypt(password.value)), email, isEmail);
    var settled := IsValid(user, errors);
    if settled.Rejected? {
      r := HandleResult(Errors(settled.errors), 422);
    } else if saved.Failure? {
      r := HandleResult(Thrown(saved.error), 422);
    } else {
      user.id := Some(saved.value);
      r := HandleResult(Session(user.ToJSON(), Token(c, user, exp)));
    }
  }

  /** A refused registration lists each offending field once, with its entity message. */
  lemma RefusedRegistrationFields(username: Option<string>, hash: string, email: Option<string>,
                                  isEmail: string -> bool)
    requires Validate(username, Some(hash), email, isEmail) != []
    ensures var fields := AsFieldMessages(Validate(username, Some(hash), email, isEmail));
      && 1 <= |fields| <= 3
      && (forall i, j :: 0 <= i < j < |fields| ==> fields[i].param != fields[j].param)
      && (forall f | f in fields ::
            f == FieldMessage("username", Some(UsernameMessage))
            || f == FieldMessage("password", Some(PasswordMessage))
            || f == FieldMessage("email", Some(EmailMessage)))
  {
    var errors := Validate(username, Some(hash), email, isEmail);
    var fields := AsFieldMessages(errors);
    forall f | f in fields
      ensures f == FieldMessage("username", Some(UsernameMessage))
           || f == FieldMessage("password", Some(PasswordMessage))
           || f == FieldMessage("email", Some(EmailMessage))
    {
      var i :| 0 <= i < |fields| && fields[i] == f;
      assert errors[i] in errors;
    }
  }
}
