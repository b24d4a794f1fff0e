/**
 * The request-pipeline rules of the Prisma stack (src/middlewares/middleware.ts):
 * token extraction, the `isAuth` guard, the `validate` step that ends a
 * check chain, and the `file` upload validator.
 *
 * Express's `req`, `res` and `next` are objects the middleware changes:
 * `Request` carries the fields `isAuth` writes, `Response` the reply written
 * to it, and `Next` counts how often the chain was continued.
 */
module Middleware {
  import opened Wrappers
  import opened Strings
  import opened UserRepository
  import opened Crypto

  /** One entry of express-validator's `validationResult(req).array()`. */
  datatype ValidationError = ValidationError(param: string, msg: string)

  datatype Body = ErrorsBody(errors: seq<ValidationError>) | UnauthenticatedBody
  datatype Reply = Reply(status: int, body: Body)

  /** The reply `Unauthenticated(res)` writes. */
  const UnauthenticatedReply := Reply(401, UnauthenticatedBody)

  class Request {
    /** `req.cookies.token` */
    const cookieToken: Option<string>
    /** `req.get('authorization')` */
    const authorization: Option<string>
    var user: Option<LoadedUser>
    var auth: bool

    constructor (cookieToken: Option<string>, authorization: Option<string>)
      ensures this.cookieToken == cookieToken && this.authorization == authorization
      ensures user.None? && !auth
    {
      this.cookieToken := cookieToken;
      this.authorization := authorization;
      user := None;
      auth := false;
    }
  }

  class Response {
    /** The status and JSON body sent, once one has been. */
    var reply: Option<Reply>

    constructor ()
      ensures reply.None?
    {
      reply := None;
    }

    method Send(r: Reply)
      modifies this
      ensures reply == Some(r)
    {
      reply := Some(r);
    }
  }

  class Next {
    var calls: nat

    constructor ()
      ensures calls == 0
    {
      calls := 0;
    }

    method Call()
      modifies this
      ensures calls == old(calls) + 1
    {
      calls := calls + 1;
    }
  }

  /** JavaScript truthiness of an optional string: present and non-empty. */
  function Truthy(s: Option<string>): (b: bool)
    ensures s.None? ==> !b
    ensures s.Some? ==> (b <==> |s.value| > 0)
  {
    s.Some? && s.value != ""
  }

  /**
   * `validate`: when the check chain left errors, reply 400 with all of
   * them and stop; otherwise continue the chain once.
   */
  method Validate(errors: seq<ValidationError>, res: Response, next: Next)
    modifies res, next
    ensures errors != [] ==> res.reply == Some(Reply(400, ErrorsBody(errors))) && next.calls == old(next.calls)
    ensures errors == [] ==> res.reply == old(res.reply) && next.calls == old(next.calls) + 1
  {
    if |errors| > 0 {
      res.Send(Reply(400, ErrorsBody(errors)));
      return;
    }
    next.Call();
  }

  /**
   * The token an `Authorization` header carries: the text right after the
   * first space, up to the next space or the end, or null when the header
   * has no space.
   */
  function HeaderToken(h: string): (t: Option<string>)
    ensures t.None? <==> ' ' !in h
    ensures t.Some? ==>
      var start := IndexOf(h, ' ') + 1;
      var end := start + |t.value|;
      && end <= |h| && h[start..end] == t.value
      && ' ' !in t.value && (end == |h| || h[end] == ' ')
  {
    var k := IndexOf(h, ' ');
    if k < 0 then None
    else
      BeforeFirstAt(h, k + 1, ' ');
      Some(BeforeFirst(h[k + 1..], ' '))
  }

  /** The header token is what the source computes: `split(' ')`, null below two parts, else `parts[1]`. */
  lemma HeaderTokenIsSecondPart(h: string)
    ensures var parts := Split(h, ' ');
      HeaderToken(h) == if |parts| < 2 then None else Some(parts[1])
  {
    if ' ' in h {
      SplitSecond(h, ' ');
    }
  }

  /**
   * `getToken(req)`: a set cookie token wins over the header; a set header
   * gives its token; otherwise nothing. JavaScript's `null` and `undefined`
   * are both None.
   */
  function GetToken(cookieToken: Option<string>, authorization: Option<string>): (t: Option<string>)
    ensures Truthy(cookieToken) ==> t == cookieToken
    ensures !Truthy(cookieToken) && !Truthy(authorization) ==> t.None?
    ensures !Truthy(cookieToken) && Truthy(authorization) ==> t == HeaderToken(authorization.value)
  {
    if Truthy(cookieToken) then cookieToken
    else if Truthy(authorization) then HeaderToken(authorization.value)
    else None
  }

  /**
   * The user `isAuth` attaches, AS WRITTEN: the decoded token is the whole
   * verified payload `{ exp, data }`, whose `id` property is undefined, and
   * Prisma drops an undefined filter, so the lookup matches every row.
   */
  function AsWrittenIdentity(token: Option<string>, oracles: Oracles, users: seq<UserRecord>, roles: seq<RoleRecord>): Option<LoadedUser> {
    if !Truthy(token) then None
    else match oracles.verify(token.value)
      case None => None
      case Some(_) => FindOneBy(users, roles, IdColumn, Undefined)
  }

  /**
   * The user `isAuth` attaches once the signed `data` is parsed and its
   * `id` used for the lookup (as the older src/utils/crypt.ts does).
   */
  function Identity(token: Option<string>, oracles: Oracles, users: seq<UserRecord>, roles: seq<RoleRecord>): Option<LoadedUser> {
    if !Truthy(token) then None
    else match oracles.verify(token.value)
      case None => None
      case Some(claims) =>
        match ParseIdPayload(claims.data)
        case None => None
        case Some(id) => FindOneBy(users, roles, IdColumn, IntValue(id))
  }

  /**
   * `isAuth` as written: the three ways to fail (no token, a token that
   * does not verify, no user for the lookup) all reply Unauthenticated;
   * otherwise `req.user` and `req.auth` are set and the chain continues once.
   */
  method IsAuth(req: Request, res: Response, next: Next, store: UserStore, oracles: Oracles)
    modifies req, res, next
    ensures var who := AsWrittenIdentity(GetToken(req.cookieToken, req.authorization), oracles, store.users, store.roles);
      if who.None? then
        res.reply == Some(UnauthenticatedReply) && req.user == old(req.user) && req.auth == old(req.auth) && next.calls == old(next.calls)
      else
        req.user == who && req.auth && res.reply == old(res.reply) && next.calls == old(next.calls) + 1
  {
    var token := GetToken(req.cookieToken, req.authorization);
    if !Truthy(token) {
      res.Send(UnauthenticatedReply);
      return;
    }
    var decoded := oracles.verify(token.value);
    if decoded.None? {
      res.Send(UnauthenticatedReply);
      return;
    }
    // `user.id` on the payload `{ exp, data }` reads a property that is not there.
    var fromDb := FindOneBy(store.users, store.roles, IdColumn, Undefined);
    if fromDb.None? {
      res.Send(UnauthenticatedReply);
      return;
    }
    req.user := fromDb;
    req.auth := true;
    next.Call();
  }

  /** `isAuth` with the payload's `data` parsed before the lookup by id. */
  method IsAuthCorrected(req: Request, res: Response, next: Next, store: UserStore, oracles: Oracles)
    modifies req, res, next
    ensures var who := Identity(GetToken(req.cookieToken, req.authorization), oracles, store.users, store.roles);
      if who.None? then
        res.reply == Some(UnauthenticatedReply) && req.user == old(req.user) && req.auth == old(req.auth) && next.calls == old(next.calls)
      else
        req.user == who && req.auth && res.reply == old(res.reply) && next.calls == old(next.calls) + 1
  {
    var token := GetToken(req.cookieToken, req.authorization);
    if !Truthy(token) {
      res.Send(UnauthenticatedReply);
      return;
    }
    var decoded := oracles.verify(token.value);
    if decoded.None? {
      res.Send(UnauthenticatedReply);
      return;
    }
    var id := ParseIdPayload(decoded.value.data);
    if id.None? {
      res.Send(UnauthenticatedReply);
      return;
    }
    var fromDb := FindOneBy(store.users, store.roles, IdColumn, IntValue(id.value));
    if fromDb.None? {
      res.Send(UnauthenticatedReply);
      return;
    }
    req.user := fromDb;
    req.auth := true;
    next.Call();
  }

  /**
   * As written, any token that verifies authenticates the FIRST stored
   * user, whoever the token was issued for.
   */
  lemma AsWrittenIgnoresTokenSubject(token: string, oracles: Oracles, users: seq<UserRecord>, roles: seq<RoleRecord>)
    requires token != "" && oracles.verify(token).Some?
    ensures AsWrittenIdentity(Some(token), oracles, users, roles) == if users == [] then None else Some(Load(users[0], roles))
  {
    if users != [] {
      assert Matches(users[0], IdColumn, Undefined);
    }
  }

  /**
   * Two users, and a token that verifies to the payload issued for the
   * second one: as written, `isAuth` attaches the first.
   */
  lemma AsWrittenAttachesWrongUser()
    ensures var roles := [RoleRecord(1, "default", "Member")];
      var alice := UserRecord(1, "alice", "alice@example.com", "digest-a", 1);
      var bob := UserRecord(2, "bob", "bob@example.com", "digest-b", 1);
      var oracles := Oracles(s => s, (p, h) => p == h, c => "token", t => Some(Claims(3600, IdPayload(2))));
      && AsWrittenIdentity(Some("token"), oracles, [alice, bob], roles) == Some(Load(alice, roles))
      && Identity(Some("token"), oracles, [alice, bob], roles) == Some(Load(bob, roles))
  {
    var roles := [RoleRecord(1, "default", "Member")];
    var alice := UserRecord(1, "alice", "alice@example.com", "digest-a", 1);
    var bob := UserRecord(2, "bob", "bob@example.com", "digest-b", 1);
    var oracles := Oracles(s => s, (p, h) => p == h, c => "token", t => Some(Claims(3600, IdPayload(2))));
    AsWrittenIgnoresTokenSubject("token", oracles, [alice, bob], roles);
    IdPayloadRoundTrip(2);
    assert IsFirstMatch([alice, bob], IdColumn, IntValue(2), 1);
  }

  /**
   * Corrected: a token whose verified payload is the one issued for a
   * stored user authenticates exactly that user (ids are primary keys).
   */
  lemma {:induction false} IssuedTokenIdentifiesUser(token: string, oracles: Oracles, exp: int,
                                                     users: seq<UserRecord>, roles: seq<RoleRecord>, i: nat)
    requires WellFormed(users, roles) && i < |users|
    requires token != "" && oracles.verify(token) == Some(Claims(exp, IdPayload(users[i].id)))
    ensures Identity(Some(token), oracles, users, roles) == Some(Load(users[i], roles))
  {
    IdPayloadRoundTrip(users[i].id);
    assert Matches(users[i], IdColumn, IntValue(users[i].id));
    var found := FindOneBy(users, roles, IdColumn, IntValue(users[i].id));
    var k :| IsFirstMatch(users, IdColumn, IntValue(users[i].id), k) && found.value == Load(users[k], roles);
  }

  /** The upload options of `file(options)`; absent fields are JavaScript `undefined`. */
  datatype Extensions = OneExtension(ext: string) | ExtensionList(exts: seq<string>)
  datatype FileUploadOptions = FileUploadOptions(name: string, extensions: Option<Extensions>, required: Option<bool>)
  datatype UploadedFile = UploadedFile(name: string)

  /** The outcome of an express-validator custom check: it passes or throws an Error with a message. */
  datatype CustomCheck = Passed | Thrown(message: string)

  /** `required` defaults to true. */
  function Required(options: FileUploadOptions): (b: bool)
    ensures options.required.None? ==> b
    ensures options.required.Some? ==> b == options.required.value
  {
    options.required.GetOr(true)
  }

  /** The truthiness of `options.extensions`: an empty string is falsy, any array (even empty) truthy. */
  function HasExtensions(options: FileUploadOptions): (b: bool)
    ensures options.extensions.None? ==> !b
    ensures options.extensions.Some? && options.extensions.value.OneExtension? ==>
      (b <==> |options.extensions.value.ext| > 0)
    ensures options.extensions.Some? && options.extensions.value.ExtensionList? ==> b
  {
    match options.extensions
    case None => false
    case Some(OneExtension(e)) => e != ""
    case Some(ExtensionList(_)) => true
  }

  /** The extensions as a list: a single string is a one-element list. */
  function ExtensionsList(e: Extensions): (list: seq<string>)
    ensures e.OneExtension? ==> list == [e.ext]
    ensures e.ExtensionList? ==> list == e.exts
  {
    match e
    case OneExtension(x) => [x]
    case ExtensionList(xs) => xs
  }

  /** `extensionsArray.map((e) => '.' + e)` */
  function Dotted(exts: seq<string>): (r: seq<string>)
    ensures |r| == |exts|
    ensures forall i :: 0 <= i < |exts| ==> r[i] == "." + exts[i]
  {
    if exts == [] then [] else ["." + exts[0]] + Dotted(exts[1..])
  }

  /**
   * `extname(name)` by the last-dot rule: the text from the last `.` on,
   * or empty when there is no dot or the only dot leads the name.
   */
  function ExtName(name: string): (r: string)
    ensures r != "" <==> LastIndexOf(name, '.') > 0
    ensures r == "" || (r[0] == '.' && '.' !in r[1..] && |r| < |name| && name[|name| - |r|..] == r)
  {
    var k := LastIndexOf(name, '.');
    if k <= 0 then "" else name[k..]
  }

  /**
   * The custom check `file(options)` installs on `files.<name>`:
   * `required_file` for a missing required file, `invalid_extension` for a
   * present file whose extension is not among the dotted allowed ones, and
   * a pass otherwise.
   */
  function FileCheck(options: FileUploadOptions, files: Option<map<string, UploadedFile>>): (r: CustomCheck)
    ensures var present := files.Some? && options.name in files.value;
      && (r == Thrown("required_file") <==> !present && Required(options))
      && (r == Thrown("invalid_extension") <==>
            present && HasExtensions(options) &&
            forall e :: e in ExtensionsList(options.extensions.value) ==> "." + e != ExtName(files.value[options.name].name))
      && (r.Passed? || r == Thrown("required_file") || r == Thrown("invalid_extension"))
  {
    var exists_ := files.Some? && options.name in files.value;
    if !exists_ && Required(options) then Thrown("required_file")
    else if exists_ && HasExtensions(options) then
      var extensions := Dotted(ExtensionsList(options.extensions.value));
      if ExtName(files.value[options.name].name) !in extensions then Thrown("invalid_extension") else Passed
    else Passed
  }

  /** The error express-validator records for the field `files.<name>` when the check throws. */
  function FileErrors(options: FileUploadOptions, files: Option<map<string, UploadedFile>>): (errors: seq<ValidationError>)
    ensures errors == [] <==> FileCheck(options, files).Passed?
    ensures FileCheck(options, files).Thrown? ==>
      errors == [ValidationError("files." + options.name, FileCheck(options, files).message)]
    ensures forall e | e in errors :: e.param == "files." + options.name && Thrown(e.msg) == FileCheck(options, files)
  {
    match FileCheck(options, files)
    case Passed => []
    case Thrown(m) => [ValidationError("files." + options.name, m)]
  }
}
