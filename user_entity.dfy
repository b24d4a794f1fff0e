/**
 * The TypeORM `User` entity (src/entities/User.ts): its role helpers, its
 * password-free JSON form, its construction from JSON, and the length and
 * email constraints its decorators declare.
 */
module UserEntity {
  import opened Wrappers
  import opened ClassValidator

  /** The TypeORM `Role` entity; only read here. */
  datatype Role = Role(id: string, name: string, displayName: string)

  /** The argument of `hasRole`: one role name, or a list of them. */
  datatype RoleQuery = RoleName(name: string) | RoleNames(names: seq<string>)

  /** A JSON object with string fields as it is serialized: a field set to `undefined` is absent. */
  type JsonObject = map<string, string>

  /** The three fields `toJSON` exposes. */
  const PublicFields: set<string> := {"id", "username", "email"}

  /** The field `name` of a serialized object, present when `v` is set. */
  function Field(name: string, v: Option<string>): (j: JsonObject)
    ensures name in j <==> v.Some?
    ensures j.Keys <= {name}
    ensures v.Some? ==> j[name] == v.value
  {
    if v.Some? then map[name := v.value] else map[]
  }

  /** `json.<name>`: the field's value, or undefined. */
  function Get(json: JsonObject, name: string): (v: Option<string>)
    ensures v.Some? <==> name in json
    ensures v.Some? ==> v.value == json[name]
  {
    if name in json then Some(json[name]) else None
  }

  class User {
    var id: Option<string>
    var username: Option<string>
    var password: Option<string>
    var email: Option<string>
    var role: Option<Role>

    /** `new User()`: every column unset. */
    constructor ()
      ensures id.None? && username.None? && password.None? && email.None? && role.None?
    {
      id, username, password, email, role := None, None, None, None, None;
    }

    /**
     * `hasRole(role)`: for a name, whether the user's role has that name;
     * for a list, whether the role's name is in it. Reading the name of an
     * unset role throws a TypeError.
     */
    function HasRole(query: RoleQuery): (r: Result<bool, string>)
      reads this
      ensures r.Failure? <==> role.None?
      ensures r.Success? && query.RoleName? ==> (r.value <==> role.value.name == query.name)
      ensures r.Success? && query.RoleNames? ==> (r.value <==> exists k :: 0 <= k < |query.names| && query.names[k] == role.value.name)
    {
      if role.None? then Failure("TypeError")
      else match query
        case RoleName(n) => Success(role.value.name == n)
        case RoleNames(ns) => Success(role.value.name in ns)
    }

    /** `isAdmin()`: the role is named `admin`. */
    function IsAdmin(): (r: Result<bool, string>)
      reads this
      ensures r.Failure? <==> role.None?
      ensures r.Success? ==> (r.value <==> role.value.name == "admin")
    {
      HasRole(RoleName("admin"))
    }

    /**
     * `toJSON()` as serialized: `id`, `username` and `email`, each present
     * when set, and never the password.
     */
    function ToJSON(): (j: JsonObject)
      reads this
      ensures j.Keys <= PublicFields
      ensures "password" !in j
      ensures Get(j, "id") == id && Get(j, "username") == username && Get(j, "email") == email
    {
      Field("id", id) + Field("username", username) + Field("email", email)
    }

    /**
     * `User.fromJSON(json)`: a new user with `id`, `username` and `email`
     * copied and password and role left unset, so that its `toJSON()` is
     * the input cut down to those three fields.
     */
    static method FromJSON(json: JsonObject) returns (u: User)
      ensures fresh(u)
      ensures u.id == Get(json, "id") && u.username == Get(json, "username") && u.email == Get(json, "email")
      ensures u.password.None? && u.role.None?
      ensures u.ToJSON() == map k | k in json && k in PublicFields :: json[k]
    {
      u := new User();
      u.id := Get(json, "id");
      u.username := Get(json, "username");
      u.email := Get(json, "email");
      ghost var j := u.ToJSON();
      ghost var r := map k | k in json && k in PublicFields :: json[k];
      assert forall k :: k in j <==> k in r;
      assert forall k | k in j :: j[k] == r[k];
    }
  }

  /** A serialized user is determined by its three public fields. */
  lemma PublicViewsAgree(a: JsonObject, b: JsonObject)
    requires a.Keys <= PublicFields && b.Keys <= PublicFields
    requires Get(a, "id") == Get(b, "id") && Get(a, "username") == Get(b, "username")
    requires Get(a, "email") == Get(b, "email")
    ensures a == b
  {
    assert forall k :: k in a <==> k in b;
  }

  /** A one-name query and the one-element list answer alike. */
  lemma HasRoleSingleton(u: User, n: string)
    ensures u.HasRole(RoleName(n)) == u.HasRole(RoleNames([n]))
  {
  }

  /** A list query holds iff some name of the list holds on its own. */
  lemma {:induction false} HasRoleList(u: User, names: seq<string>)
    requires u.role.Some?
    ensures u.HasRole(RoleNames(names)).value <==> exists k :: 0 <= k < |names| && u.HasRole(RoleName(names[k])).value
  {
  }

  const UsernameMessage := "Le nom d'utilisateur doit faire entre 5 et 20 caract\U{e8}res"
  const PasswordMessage := "Le mot de passe n'est pas valide"
  const EmailMessage := "L'adresse email n'est pas valide"

  /** The error a failing rule gives for its property. */
  function Rule(property: string, ok: bool, constraint: Constraint): (errors: seq<ValidationError>)
    ensures ok <==> errors == []
    ensures !ok ==> errors == [ValidationError(property, [constraint])]
  {
    if ok then [] else [ValidationError(property, [constraint])]
  }

  const UsernameError := ValidationError("username", [Constraint("isLength", UsernameMessage)])
  const PasswordError := ValidationError("password", [Constraint("isLength", PasswordMessage)])
  const EmailError := ValidationError("email", [Constraint("isEmail", EmailMessage)])

  /**
   * `errors` reports exactly the failed rules among username, password and
   * email, one error with one constraint per failed rule, in declaration order.
   */
  predicate ReportsFailures(errors: seq<ValidationError>, usernameOk: bool, passwordOk: bool, emailOk: bool) {
    && (errors == [] <==> usernameOk && passwordOk && emailOk)
    && (UsernameError in errors <==> !usernameOk)
    && (PasswordError in errors <==> !passwordOk)
    && (EmailError in errors <==> !emailOk)
    && (UsernameError in errors ==> errors[0] == UsernameError)
    && (EmailError in errors ==> errors[|errors| - 1] == EmailError)
    && |errors| <= 3
    && (forall i :: 0 <= i < |errors| ==> |errors[i].constraints| == 1)
    && (forall i, j :: 0 <= i < j < |errors| ==> errors[i].property != errors[j].property)
    && (forall e | e in errors :: e == UsernameError || e == PasswordError || e == EmailError)
  }

  /** The errors of the three rules, concatenated in declaration order. */
  function RuleErrors(usernameOk: bool, passwordOk: bool, emailOk: bool): seq<ValidationError> {
    Rule("username", usernameOk, UsernameError.constraints[0])
      + Rule("password", passwordOk, PasswordError.constraints[0])
      + Rule("email", emailOk, EmailError.constraints[0])
  }

  /** The three rules are about three distinct properties. */
  lemma DistinctProperties()
    ensures UsernameError.property != PasswordError.property
    ensures UsernameError.property != EmailError.property
    ensures PasswordError.property != EmailError.property
  {
    assert "username"[0] != "password"[0];
  }

  /** With a valid username and password, only the email rule can fail. */
  lemma UsernameAndPasswordPass(emailOk: bool)
    ensures ReportsFailures(RuleErrors(true, true, emailOk), true, true, emailOk)
  {
    DistinctProperties();
    if emailOk {
      assert RuleErrors(true, true, true) == [];
      assert ReportsFailures([], true, true, true);
    } else {
      assert RuleErrors(true, true, false) == [EmailError];
      assert ReportsFailures([EmailError], true, true, false);
    }
  }

  /** With a valid username and an invalid password, the password error comes first. */
  lemma PasswordFails(emailOk: bool)
    ensures ReportsFailures(RuleErrors(true, false, emailOk), true, false, emailOk)
  {
    DistinctProperties();
    if emailOk {
      assert RuleErrors(true, false, true) == [PasswordError];
      assert ReportsFailures([PasswordError], true, false, true);
    } else {
      assert RuleErrors(true, false, false) == [PasswordError, EmailError];
      assert ReportsFailures([PasswordError, EmailError], true, false, false);
    }
  }

  /** With an invalid username and a valid password, the username error comes first. */
  lemma UsernameFails(emailOk: bool)
    ensures ReportsFailures(RuleErrors(false, true, emailOk), false, true, emailOk)
  {
    DistinctProperties();
    if emailOk {
      assert RuleErrors(false, true, true) == [UsernameError];
      assert ReportsFailures([UsernameError], false, true, true);
    } else {
      assert RuleErrors(false, true, false) == [UsernameError, EmailError];
      assert ReportsFailures([UsernameError, EmailError], false, true, false);
    }
  }

  /** With an invalid username and password, both errors come first, in that order. */
  lemma UsernameAndPasswordFail(emailOk: bool)
    ensures ReportsFailures(RuleErrors(false, false, emailOk), false, false, emailOk)
  {
    DistinctProperties();
    if emailOk {
      assert RuleErrors(false, false, true) == [UsernameError, PasswordError];
      assert ReportsFailures([UsernameError, PasswordError], false, false, true);
    } else {
      var all := [UsernameError, PasswordError, EmailError];
      assert RuleErrors(false, false, false) == all;
      assert ReportsFailures([UsernameError, PasswordError, EmailError], false, false, false);
    }
  }

  /**
   * class-validator's `validate(user)` for the declared rules, in declaration
   * order: username of 5 to 20 characters, password of exactly 60 (a bcrypt
   * digest), email accepted by validator.js's email test `isEmail`.
   */
  function Validate(username: Option<string>, password: Option<string>, email: Option<string>,
                    isEmail: string -> bool): (errors: seq<ValidationError>)
    ensures ReportsFailures(errors, Length(username, 5, 20), Length(password, 60, 60),
                            email.Some? && isEmail(email.value))
  {
    var usernameOk, passwordOk, emailOk := Length(username, 5, 20), Length(password, 60, 60),
      email.Some? && isEmail(email.value);
    if usernameOk && passwordOk then UsernameAndPasswordPass(emailOk); RuleErrors(true, true, emailOk)
    else if usernameOk then PasswordFails(emailOk); RuleErrors(true, false, emailOk)
    else if passwordOk then UsernameFails(emailOk); RuleErrors(false, true, emailOk)
    else UsernameAndPasswordFail(emailOk); RuleErrors(false, false, emailOk)
  }
}
