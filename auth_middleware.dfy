/**
 * The field-check chains of the Prisma stack (src/middlewares/auth_middleware.ts):
 * `login` and `create` run every check of the chain in order, collecting
 * express-validator errors, and end with `validate`.
 */
module AuthMiddleware {
  import opened Wrappers
  import opened Middleware

  /**
   * A field of the parsed request body: a JSON string, or any other JSON
   * value together with the text express-validator's standard validators
   * see for it.
   */
  datatype BodyValue = Text(s: string) | NonText(rendered: string)

  /** The parsed body; a field that is absent is `undefined`. */
  type RequestBody = map<string, BodyValue>

  /** express-validator's default message. */
  const InvalidValue := "Invalid value"
  /** The message `withMessage` attaches to the password length check only. */
  const PasswordTooShort := "Le mot de passe doit faire au moins 8 caract\U{e8}res"

  /** `isString()`: the field is present and is a JSON string. */
  predicate IsString(body: RequestBody, field: string) {
    field in body && body[field].Text?
  }

  /** The text standard validators (`isEmail`, `isLength`) check; an absent field reads as the empty string. */
  function AsText(body: RequestBody, field: string): (t: string)
    ensures IsString(body, field) ==> t == body[field].s
    ensures field !in body ==> t == ""
  {
    if field !in body then ""
    else match body[field]
      case Text(s) => s
      case NonText(r) => r
  }

  /** The errors one validator contributes. */
  function Check(field: string, ok: bool, msg: string): (errors: seq<ValidationError>)
    ensures ok <==> errors == []
    ensures !ok ==> errors == [ValidationError(field, msg)]
  {
    if ok then [] else [ValidationError(field, msg)]
  }

  /** The messages recorded against `param`, in order. */
  function MessagesFor(errors: seq<ValidationError>, param: string): seq<string> {
    if errors == [] then []
    else (if errors[0].param == param then [errors[0].msg] else []) + MessagesFor(errors[1..], param)
  }

  lemma {:induction false} MessagesForAppend(a: seq<ValidationError>, b: seq<ValidationError>, param: string)
    ensures MessagesFor(a + b, param) == MessagesFor(a, param) + MessagesFor(b, param)
  {
    if a == [] {
      assert a + b == b;
    } else {
      assert (a + b)[0] == a[0];
      assert (a + b)[1..] == a[1..] + b;
      MessagesForAppend(a[1..], b, param);
    }
  }

  /** `[body('username').isString(), body('password').isString()]` */
  function LoginChecks(body: RequestBody): (errors: seq<ValidationError>)
    ensures errors == [] <==> IsString(body, "username") && IsString(body, "password")
    ensures ValidationError("username", InvalidValue) in errors <==> !IsString(body, "username")
    ensures ValidationError("password", InvalidValue) in errors <==> !IsString(body, "password")
    ensures forall e | e in errors :: e.msg == InvalidValue && (e.param == "username" || e.param == "password")
    ensures |errors| <= 2
    ensures |errors| == 2 ==> errors[0].param == "username" && errors[1].param == "password"
  {
    Check("username", IsString(body, "username"), InvalidValue) +
    Check("password", IsString(body, "password"), InvalidValue)
  }

  /** The position of a field in the register chain. */
  function Rank(param: string): nat {
    if param == "username" then 0 else if param == "email" then 1 else 2
  }

  /**
   * `[body('username').isString(), body('email').isEmail(),
   *   body('password').isString().isLength({ min: 8 }).withMessage(...)]`:
   * every validator runs, in that order. `isEmail` is validator.js's email
   * test, passed in.
   */
  function RegisterChecks(body: RequestBody, isEmail: string -> bool): (errors: seq<ValidationError>)
    ensures forall e | e in errors :: e.param == "username" || e.param == "email" || e.param == "password"
    ensures forall i, j :: 0 <= i < j < |errors| ==> Rank(errors[i].param) <= Rank(errors[j].param)
    ensures errors == [] <==>
      IsString(body, "username") && isEmail(AsText(body, "email")) &&
      IsString(body, "password") && |AsText(body, "password")| >= 8
  {
    Check("username", IsString(body, "username"), InvalidValue) +
    Check("email", isEmail(AsText(body, "email")), InvalidValue) +
    Check("password", IsString(body, "password"), InvalidValue) +
    Check("password", |AsText(body, "password")| >= 8, PasswordTooShort)
  }

  lemma MessagesOfCheck(field: string, ok: bool, msg: string, param: string)
    ensures MessagesFor(Check(field, ok, msg), param) == if ok || field != param then [] else [msg]
  {
    if !ok {
      assert Check(field, ok, msg)[1..] == [];
    }
  }

  lemma MessagesOfChain(u: seq<ValidationError>, e: seq<ValidationError>, p1: seq<ValidationError>, p2: seq<ValidationError>, param: string)
    ensures MessagesFor(u + e + p1 + p2, param) ==
      MessagesFor(u, param) + MessagesFor(e, param) + MessagesFor(p1, param) + MessagesFor(p2, param)
  {
    MessagesForAppend(u, e, param);
    MessagesForAppend(u + e, p1, param);
    MessagesForAppend(u + e + p1, p2, param);
  }

  /** The messages the register chain records against one field, validator by validator. */
  lemma RegisterMessagesFor(body: RequestBody, isEmail: string -> bool, param: string)
    ensures MessagesFor(RegisterChecks(body, isEmail), param) ==
      (if IsString(body, "username") || param != "username" then [] else [InvalidValue]) +
      (if isEmail(AsText(body, "email")) || param != "email" then [] else [InvalidValue]) +
      (if IsString(body, "password") || param != "password" then [] else [InvalidValue]) +
      (if |AsText(body, "password")| >= 8 || param != "password" then [] else [PasswordTooShort])
  {
    var u := Check("username", IsString(body, "username"), InvalidValue);
    var e := Check("email", isEmail(AsText(body, "email")), InvalidValue);
    var p1 := Check("password", IsString(body, "password"), InvalidValue);
    var p2 := Check("password", |AsText(body, "password")| >= 8, PasswordTooShort);
    MessagesOfChain(u, e, p1, p2, param);
    MessagesOfCheck("username", IsString(body, "username"), InvalidValue, param);
    MessagesOfCheck("email", isEmail(AsText(body, "email")), InvalidValue, param);
    MessagesOfCheck("password", IsString(body, "password"), InvalidValue, param);
    MessagesOfCheck("password", |AsText(body, "password")| >= 8, PasswordTooShort, param);
  }

  lemma UsernameMessages(body: RequestBody, isEmail: string -> bool)
    ensures MessagesFor(RegisterChecks(body, isEmail), "username") == if IsString(body, "username") then [] else [InvalidValue]
  {
    RegisterMessagesFor(body, isEmail, "username");
    var m := if IsString(body, "username") then [] else [InvalidValue];
    assert m + [] + [] + [] == m;
  }

  lemma EmailMessages(body: RequestBody, isEmail: string -> bool)
    ensures MessagesFor(RegisterChecks(body, isEmail), "email") == if isEmail(AsText(body, "email")) then [] else [InvalidValue]
  {
    RegisterMessagesFor(body, isEmail, "email");
    var m := if isEmail(AsText(body, "email")) then [] else [InvalidValue];
    assert [] + m + [] + [] == m;
  }

  lemma PasswordMessages(body: RequestBody, isEmail: string -> bool)
    ensures MessagesFor(RegisterChecks(body, isEmail), "password") ==
      (if IsString(body, "password") then [] else [InvalidValue]) +
      (if |AsText(body, "password")| >= 8 then [] else [PasswordTooShort])
  {
    RegisterMessagesFor(body, isEmail, "password");
    var m1 := if IsString(body, "password") then [] else [InvalidValue];
    var m2 := if |AsText(body, "password")| >= 8 then [] else [PasswordTooShort];
    assert [] + [] + m1 + m2 == m1 + m2;
  }

  /**
   * What the register chain reports per field: one username error when
   * the username is not a string, one email error when the email fails
   * the email test, and up to two password errors, the type error before
   * the length error.
   */
  lemma RegisterMessages(body: RequestBody, isEmail: string -> bool)
    ensures MessagesFor(RegisterChecks(body, isEmail), "username") == if IsString(body, "username") then [] else [InvalidValue]
    ensures MessagesFor(RegisterChecks(body, isEmail), "email") == if isEmail(AsText(body, "email")) then [] else [InvalidValue]
    ensures MessagesFor(RegisterChecks(body, isEmail), "password") ==
      (if IsString(body, "password") then [] else [InvalidValue]) +
      (if |AsText(body, "password")| >= 8 then [] else [PasswordTooShort])
  {
    UsernameMessages(body, isEmail);
    EmailMessages(body, isEmail);
    PasswordMessages(body, isEmail);
  }

  /** The password `'a'` fails the length check only: exactly one password error. */
  lemma ShortPasswordOneError(body: RequestBody, isEmail: string -> bool)
    requires body.Keys >= {"password"} && body["password"] == Text("a")
    ensures MessagesFor(RegisterChecks(body, isEmail), "password") == [PasswordTooShort]
  {
    RegisterMessages(body, isEmail);
  }

  /** A missing password fails both `isString` and `isLength`: two password errors. */
  lemma MissingPasswordTwoErrors(body: RequestBody, isEmail: string -> bool)
    requires "password" !in body
    ensures MessagesFor(RegisterChecks(body, isEmail), "password") == [InvalidValue, PasswordTooShort]
  {
    RegisterMessages(body, isEmail);
  }

  /** The login route up to the controller: the checks, then `validate`. */
  method Login(body: RequestBody, res: Response, next: Next)
    modifies res, next
    ensures LoginChecks(body) == [] ==> res.reply == old(res.reply) && next.calls == old(next.calls) + 1
    ensures LoginChecks(body) != [] ==>
      res.reply == Some(Reply(400, ErrorsBody(LoginChecks(body)))) && next.calls == old(next.calls)
  {
    Validate(LoginChecks(body), res, next);
  }

  /** The register route up to the controller: the checks, then `validate`. */
  method Create(body: RequestBody, isEmail: string -> bool, res: Response, next: Next)
    modifies res, next
    ensures RegisterChecks(body, isEmail) == [] ==> res.reply == old(res.reply) && next.calls == old(next.calls) + 1
    ensures RegisterChecks(body, isEmail) != [] ==>
      res.reply == Some(Reply(400, ErrorsBody(RegisterChecks(body, isEmail)))) && next.calls == old(next.calls)
  {
    Validate(RegisterChecks(body, isEmail), res, next);
  }
}
