# express-boilerplate: authentication and validation core

A Dafny model of the authentication and validation core of an Express
boilerplate. Its sources hold two stacks side by side, and they are modelled
as separate modules that are never merged:

- **the Prisma stack**
  - the user repository (`exists`, `findOneBy`, `create`) over a table of user rows and a table of roles;
  - the auth service (`login`, `create`), which returns form errors or a user with a JWT;
  - the middlewares:
    - `validate`, `getToken`, `isAuth` and the `file` upload validator in `middleware.ts`;
    - the express-validator chains of `auth_middleware.ts`.
- **the older TypeORM stack**
  - the `User` entity (`hasRole`, `isAdmin`, `toJSON`, `fromJSON`, and its length and email constraints);
  - the base controller (`handleResult`, `isValid`);
  - the auth controller (`login`, `create`).
- **the application**
  - route-name derivation in `initRoutes`;
  - the not-found handler and the error handler;
  - the missing-`CORS_ORIGINS` check.

How things are modelled:

- The database is a sequence of rows in insertion order. `UserRepository.UserStore` is a class whose `Create` appends a row and advances the id counter.
- bcrypt and jsonwebtoken are foreign libraries, so they are passed in as uninterpreted functions (`Crypto.Oracles`, `AuthController.Crypt`). Nothing is assumed of them.
- What the server signs is written out. The payload is `{exp, data}`, where `data` is the JSON text `{"id":<n>}`, and it is parsed back with a proven round trip.
- Express's `req`, `res` and `next` are small classes. `isAuth` and `validate` update their fields.
- JavaScript behaviour is kept where the code relies on it:
  - truthiness (an empty token is falsy);
  - `split` keeps empty pieces;
  - `slice(0, -1)` counts from the end;
  - `replace` with a string pattern replaces only the first match;
  - an absent body field reads as the empty string in express-validator's `isLength`;
  - a Prisma filter whose value is `undefined` is dropped, so it matches every row.

Where the code and its tests disagree, the model follows the code:

- The error codes keep their spelling: `username_alredy_in_use` and `email_alredy_in_use`.
- A successful TypeORM `create` answers 200, not 201.
- The registration chain gives at most one username error.
- `Unauthenticated(res)` is imported from src/controllers/controller.ts, which does not define it. It is modelled as a reply with status 401 and a fixed body.
- In the TypeORM `create`, a failed insert is caught by the same `catch` as a validation failure. There `handleResult(res, error, 422)` maps over a value that is not an array and throws a TypeError. The model keeps that path: `AuthController.Create` returns `Failure("TypeError")`.

The model uses these JavaScript string helpers: `split`, `indexOf`, `lastIndexOf`, `slice`, `replace` and `startsWith`. They live in `Strings`, with their own contracts.

## Model

| member | source | states |
|---|---|---|
| UserRepository.Count | src/repositories/user_repository.ts:19-21 | `count` of the matching rows is at most the number of rows |
| UserRepository.CountPositive | src/repositories/user_repository.ts:18-23 | the count of rows matching the filter is positive iff some row matches |
| UserRepository.Exists | src/repositories/user_repository.ts:18-23 | `exists(column, value)` is true iff some stored row matches the filter; an undefined value matches every row |
| UserRepository.FindOneBy | src/repositories/user_repository.ts:32-37 | no result iff no row matches; otherwise the first matching row in table order, loaded with its role |
| UserRepository.FindRoleByName | src/repositories/role_repository.ts:4-9 | fails with NotFoundError iff no role has the name; otherwise the first role with that name |
| UserRepository.RoleById | src/repositories/user_repository.ts:34-35 | the role included with a user: none iff no role has the id, otherwise a stored role with that id |
| UserRepository.ExistsAfterAppend | src/repositories/user_repository.ts:18-23 | after appending a row, a filter matches iff it matched before or matches the new row |
| UserRepository.UserStore.constructor | src/repositories/user_repository.ts:45-56 | an empty user table over the given roles, first id 1 |
| UserRepository.UserStore.Create | src/repositories/user_repository.ts:45-56 | without a `default` role: NotFoundError and the table unchanged; otherwise appends a row with the next id, the given fields and the default role's id, and returns it loaded with its role |
| Crypto.ParseIdPayload | src/utils/crypt.ts:22-31 | a parse that succeeds gives the id whose JSON text is exactly the input |
| Crypto.GenerateJWT | src/utils/crypto.ts:34-45 | the token is the signature over claims with the given expiry whose `data` parses back to the id; any claims with that expiry and a `data` parsing to that id are the ones signed |
| Crypto.IdPayloadRoundTrip | src/utils/crypto.ts:34-45 | parsing the `data` that `generateJWT({id})` signs gives back the id |
| Strings.IndexOf | src/middlewares/middleware.ts:40 | the first index of a character, or -1 iff it is absent |
| Strings.LastIndexOf | src/middlewares/middleware.ts:97 | the last index of a character, or -1 iff it is absent |
| Strings.IndexOfString | src/application.ts:94 | -1 iff the pattern occurs nowhere; otherwise an occurrence with none before it |
| Strings.IndexOfStringAt | src/application.ts:94 | an occurrence with none before it is the index `indexOf` returns |
| Strings.Split | src/middlewares/middleware.ts:40 | at least one piece, no piece holds the separator, joining the pieces gives the input back, and two or more pieces iff the separator occurs |
| Strings.BeforeFirst | src/application.ts:93 | a prefix without the separator that ends at the string's end or at the first separator |
| Strings.SplitHead | src/application.ts:93 | `split(c)[0]` is the text before the first `c` |
| Strings.SplitSecond | src/middlewares/middleware.ts:40-44 | with a separator present, `split(c)[1]` is the text after the first `c` up to the next one |
| Strings.BeforeFirstAt | src/middlewares/middleware.ts:40-44 | the text from a position up to the next separator sits in place in the whole string and ends at a separator or the end |
| Strings.SliceTo | src/application.ts:95 | `slice(0, end)` is a prefix whose length is `end` clamped, counting from the end when `end` is negative |
| Strings.ReplaceFirst | src/application.ts:95 | same length; unchanged without the pattern; otherwise only the first occurrence is replaced |
| Strings.StartsWith | src/application.ts:92 | true iff the prefix is no longer than the string and equals its first characters |
| Strings.ParseNatOfDecimal | src/utils/crypto.ts:41 | reading back the decimal text of a number gives the number |
| AuthService.WithoutPassword | src/services/auth_service.ts:18 | `{ ...user, password: undefined }`: the password is unset and every other field is kept |
| AuthService.Login | src/services/auth_service.ts:6-20 | an unknown username gives `username_not_found`; for the first user with that username, `password_not_match` iff bcrypt rejects the password; success iff it accepts, with the password-free user and a token signed over that user's id |
| AuthService.ConflictErrors | src/services/auth_service.ts:24-39 | `username_alredy_in_use` iff the username is taken, `email_alredy_in_use` iff the email is taken, at most those two and in that order |
| AuthService.AppendKeepsUnique | src/services/auth_service.ts:23-47 | inserting a row with no conflict keeps usernames and emails unique |
| AuthService.RegisteringTwiceIsRefused | src/services/auth_service.ts:24-39 | registering the same username and email again is refused with both errors |
| AuthService.Create | src/services/auth_service.ts:23-47 | conflicts are returned and nothing is stored; otherwise the hashed user is inserted through the repository and returned without its password and with a token; a missing default role fails; uniqueness of credentials is preserved |
| Middleware.Request.constructor | src/middlewares/middleware.ts:10-18 | a request with its cookie and header, not yet authenticated |
| Middleware.Response.constructor | src/middlewares/middleware.ts:28 | a response with nothing sent yet |
| Middleware.Response.Send | src/middlewares/middleware.ts:28 | the response now holds the reply |
| Middleware.Next.constructor | src/middlewares/middleware.ts:31 | a `next` that has not been called |
| Middleware.Next.Call | src/middlewares/middleware.ts:31 | records one more call to `next` |
| Middleware.Validate | src/middlewares/middleware.ts:25-32 | with errors: 400 with all of them and `next` not called; without: nothing sent and `next` called once |
| Middleware.HeaderToken | src/middlewares/middleware.ts:39-45 | none iff the header holds no space; otherwise the word right after the first space, as it stands in the header, ending at the next space or the end |
| Middleware.HeaderTokenIsSecondPart | src/middlewares/middleware.ts:40-44 | the header token is `split(' ')[1]`, and none exactly when the split gives fewer than two parts |
| Middleware.Truthy | src/middlewares/middleware.ts:35 | an undefined value is falsy; a string is truthy iff it is non-empty |
| Middleware.GetToken | src/middlewares/middleware.ts:34-46 | a truthy cookie token wins; otherwise a truthy header gives its token; otherwise none |
| Middleware.IsAuth | src/middlewares/middleware.ts:52-70 | as written: no token, a token that fails verification, or no user found replies Unauthenticated and changes nothing else; otherwise `req.user` is the looked-up user, `req.auth` is set and `next` is called once |
| Middleware.IsAuthCorrected | src/middlewares/middleware.ts:52-70 | the same flow with the token's `data` parsed and its id used for the lookup; a payload that does not parse is Unauthenticated |
| Middleware.AsWrittenIgnoresTokenSubject | src/middlewares/middleware.ts:58-63 | as written, any token that verifies authenticates the first stored user, whoever it was issued for |
| Middleware.AsWrittenAttachesWrongUser | src/middlewares/middleware.ts:58-63 | with users 1 and 2 and a token issued for user 2, the code as written attaches user 1 and the corrected lookup attaches user 2 |
| Middleware.IssuedTokenIdentifiesUser | src/middlewares/middleware.ts:58-69 | corrected: a token verifying to the payload issued for a stored user authenticates exactly that user |
| Middleware.Required | src/middlewares/middleware.ts:86 | a file is required unless `required` is given as false |
| Middleware.HasExtensions | src/middlewares/middleware.ts:92 | no `extensions`: false; one string: true iff it is non-empty; a list, even an empty one: true |
| Middleware.ExtensionsList | src/middlewares/middleware.ts:93-95 | one extension becomes a one-element list; a list is kept |
| Middleware.Dotted | src/middlewares/middleware.ts:96 | every extension gets a leading dot, same length and order |
| Middleware.ExtName | src/middlewares/middleware.ts:97 | non-empty iff the last dot is past the first character; then a proper suffix of the name that starts with a dot and holds no other dot (the text from the last dot on) |
| Middleware.FileCheck | src/middlewares/middleware.ts:85-103 | `required_file` iff the file is missing and required; `invalid_extension` iff it is present, extensions are given and none matches its extension; passes otherwise |
| Middleware.FileErrors | src/middlewares/middleware.ts:87-103 | a thrown check gives exactly one error, on `files.<name>` with the thrown message; a passing check gives none |
| AuthMiddleware.AsText | src/middlewares/auth_middleware.ts:13-18 | a string field reads as itself; an absent field reads as the empty string |
| AuthMiddleware.Check | src/middlewares/auth_middleware.ts:6-18 | one validator: no error iff it holds, otherwise one error on its field with its message |
| AuthMiddleware.MessagesForAppend | src/middlewares/auth_middleware.ts:12-20 | the messages for a field over a concatenation are the two lists of messages concatenated |
| AuthMiddleware.LoginChecks | src/middlewares/auth_middleware.ts:6-10 | no errors iff username and password are both strings; an `Invalid value` error for exactly each field that is not; username before password |
| AuthMiddleware.RegisterChecks | src/middlewares/auth_middleware.ts:12-20 | errors only on username, email and password, in that order; none iff username is a string, email passes `isEmail` and password is a string of at least 8 characters |
| AuthMiddleware.MessagesOfCheck | src/middlewares/auth_middleware.ts:13-18 | a validator contributes its message to its own field only, and only when it fails |
| AuthMiddleware.MessagesOfChain | src/middlewares/auth_middleware.ts:12-20 | the messages of a field over the chained validators are those of each validator in turn |
| AuthMiddleware.RegisterMessagesFor | src/middlewares/auth_middleware.ts:12-20 | per field, the messages of the register chain are those of that field's own validators in order |
| AuthMiddleware.UsernameMessages | src/middlewares/auth_middleware.ts:13 | registration records `Invalid value` on the username iff it is not a string |
| AuthMiddleware.EmailMessages | src/middlewares/auth_middleware.ts:14 | registration records `Invalid value` on the email iff `isEmail` rejects it |
| AuthMiddleware.PasswordMessages | src/middlewares/auth_middleware.ts:15-18 | registration records `Invalid value` on the password iff it is not a string, then the French length message iff it is shorter than 8 |
| AuthMiddleware.RegisterMessages | src/middlewares/auth_middleware.ts:12-20 | username: `Invalid value` iff not a string; email: `Invalid value` iff rejected; password: `Invalid value` iff not a string, then the French length message iff shorter than 8 |
| AuthMiddleware.ShortPasswordOneError | src/middlewares/auth_middleware.ts:15-18 | a one-character password gives only the length message (`withMessage` applies to `isLength` only) |
| AuthMiddleware.MissingPasswordTwoErrors | src/middlewares/auth_middleware.ts:15-18 | a missing password gives `Invalid value` and then the length message |
| AuthMiddleware.Login | src/middlewares/auth_middleware.ts:6-10 | the login chain ends in `validate`: 400 with the check errors, or `next` called once |
| AuthMiddleware.Create | src/middlewares/auth_middleware.ts:12-20 | the register chain ends in `validate`: 400 with the check errors, or `next` called once |
| ClassValidator.Length | src/entities/User.ts:12 | `@Length(min, max)`: an undefined value fails; a string passes iff its length is within the bounds |
| UserEntity.Field | src/entities/User.ts:40-44 | a serialized field is present iff it is set, with its value |
| UserEntity.Get | src/entities/User.ts:50-52 | reading a JSON field gives its value, or undefined iff it is absent |
| UserEntity.User.constructor | src/entities/User.ts:49 | `new User()` has no column set |
| UserEntity.User.HasRole | src/entities/User.ts:27-33 | throws iff the role is unset; for a name, true iff the role has that name; for a list, true iff the role's name is in it |
| UserEntity.User.IsAdmin | src/entities/User.ts:35-37 | throws iff the role is unset; otherwise true iff the role is named `admin` |
| UserEntity.HasRoleSingleton | src/entities/User.ts:27-33 | asking for one name and for the one-element list answer alike |
| UserEntity.HasRoleList | src/entities/User.ts:32 | a list query holds iff one of its names holds on its own |
| UserEntity.User.ToJSON | src/entities/User.ts:39-45 | exactly the set fields among `id`, `username` and `email`, each with its value, and never `password` |
| UserEntity.User.FromJSON | src/entities/User.ts:48-54 | a new user with `id`, `username` and `email` copied and no password or role, whose `toJSON()` is the input cut down to those three fields |
| UserEntity.PublicViewsAgree | src/entities/User.ts:39-45 | two serialized users holding only `id`, `username` and `email`, and agreeing on those three, are the same object |
| UserEntity.UsernameAndPasswordPass | src/entities/User.ts:11-22 | with valid username and password, the only possible error is the email's |
| UserEntity.PasswordFails | src/entities/User.ts:11-22 | with a valid username and an invalid password, the password error comes first, then the email error if that rule fails too |
| UserEntity.UsernameFails | src/entities/User.ts:11-22 | with an invalid username and a valid password, the username error comes first, then the email error if that rule fails too |
| UserEntity.UsernameAndPasswordFail | src/entities/User.ts:11-22 | with invalid username and password, their errors come in that order, then the email error if that rule fails too |
| UserEntity.Rule | src/entities/User.ts:11-22 | a failing rule gives one error on its property with its constraint; a passing one gives none |
| UserEntity.Validate | src/entities/User.ts:11-22 | no errors iff the username has 5 to 20 characters, the password exactly 60 and the email passes `isEmail`; the username error is present iff its length rule fails, likewise the password and email errors; errors in declaration order (username first, email last), at most one per property, each with one constraint and its declared message |
| Controller.FirstMessage | src/controllers/controller.ts:12 | the first constraint's message, or undefined iff there is none |
| Controller.AsFieldMessages | src/controllers/controller.ts:10-13 | one `{param, msg}` per error in the same order: its property and its first message |
| Controller.HandleResult | src/controllers/controller.ts:6-22 | 422 and not custom: the error list rewritten entry by entry, or a TypeError for data that is not an array; undefined data and not custom: 404 `Entity not found`; otherwise the given status with the data unchanged |
| Controller.DefaultStatusIsOk | src/controllers/controller.ts:6-21 | with the default arguments, defined data is sent with status 200 unchanged |
| Controller.CustomBypassesRewrites | src/controllers/controller.ts:7-21 | with `custom`, every status and data pass through unchanged, 422 and undefined included |
| Controller.IsValid | src/controllers/controller.ts:30-38 | resolves with the same entity iff validation found nothing; otherwise rejects with that list |
| AuthController.Login | src/controllers/auth_controller.ts:9-25 | an unknown user gives 400 with the invalid-credentials message; a missing password or hash throws; a rejected password gives the same 400; otherwise 200 with the user's JSON and a token over it |
| AuthController.TokenSignsPublicView | src/controllers/auth_controller.ts:21-24 | `Utils.jwt(user)` signs the user's serialized form: any object with only public fields and the user's id, username and email is what is signed, and it holds no password |
| AuthController.LoginFailuresIndistinguishable | src/controllers/auth_controller.ts:10-19 | a wrong password and an unknown username get the same reply |
| AuthController.LoginHidesPassword | src/controllers/auth_controller.ts:21-24 | the session a login returns never holds the password |
| AuthController.Create | src/controllers/auth_controller.ts:27-44 | hashes the password before validation, throwing when it is missing; validation errors give 422 with one entry per error and no id; a failed insert throws TypeError; a saved user gets its id and answers 200 with its JSON and a token |
| AuthController.RefusedRegistrationFields | src/controllers/auth_controller.ts:41-43 | a refused registration lists one to three fields, each once, each with its entity message |
| Application.RouteName | src/application.ts:94-95 | length up to the first `_router`, or one less than the name when it is absent; each character is kept except the first `_`, which becomes `-` |
| Application.FirstUnderscoreOfPrefix | src/application.ts:95 | the first `_` of a prefix is the first `_` of the whole name |
| Application.RouteFor | src/application.ts:92-95 | no mount iff the file name starts with `_`; otherwise the module is the text before the first dot and the logged route name is derived from it |
| Application.Mounts | src/application.ts:91-100 | no more mounts than files |
| Application.MountsComplete | src/application.ts:91-92 | every file not starting with `_` is mounted |
| Application.MountsSound | src/application.ts:91-99 | every mount comes from a file of the listing |
| Application.InitRoutes | src/application.ts:90-101 | the loop over the directory listing mounts exactly the routers `Mounts` describes, in order: every file not starting with `_` is mounted, and every mount comes from a file of the listing |
| Application.AuthRouterMountsAuth | src/application.ts:93-95 | for module `auth_router`, the route name `initRoutes` logs for the router is `auth` |
| Application.RouterModuleRoute | src/application.ts:94-95 | for a module named `<w>_router`, the route name `initRoutes` logs for the router is `w` with its first `_` turned into `-` |
| Application.MissingSuffixDropsLastChar | src/application.ts:94-95 | for module `users`, which lacks `_router`, the route name `initRoutes` logs for the router is `user` |
| Application.UnderscoreFileSkipped | src/application.ts:92 | `_base.ts` is not mounted |
| Application.NotFoundHandler | src/application.ts:103-107 | GET (and HEAD) requests no router answered get 404 `not_found`; other methods are not handled |
| Application.ErrorHandler | src/application.ts:109-118 | 404 `not_found` iff the error is an `Error` named `NotFoundError`; everything else is 500 `server_error` |
| Application.InitMiddlewares | src/application.ts:65-68 | fails with `Missing CORS origin(s)` iff `CORS_ORIGINS` is unset; otherwise the comma-separated origins, which join back to the variable |
| Application.EmptyCorsOriginsPass | src/application.ts:65-68 | an empty `CORS_ORIGINS` passes with one empty origin |

## Left out

- bcrypt and jsonwebtoken (src/utils/crypto.ts, src/utils/crypt.ts) are uninterpreted functions. Salt randomness, digest formats, signature checking and expiry checking are not modelled.
- `Date.now()`: the token expiry defaults of src/utils/crypto.ts:36 and src/utils/crypt.ts:15 become an `exp` parameter.
- src/lib/file_uploader.ts (filesystem and image encoding) is not part of this model. Neither is `fileUpload`, the express-fileupload configuration at src/middlewares/middleware.ts:77-83.
- `applyCommonFilters` (src/middlewares/middleware.ts:106-109) is not part of this model.
- Express wiring is not modelled:
  - Sentry, morgan, helmet, the body parsers, cookie-parser, compression and `listen` in src/application.ts;
  - the CORS header loop, which depends on `setHeader` overwriting;
  - `require`-ing each router, and the logger lines of `initRoutes`: the route name is computed and logged, but only the module name is passed to `require`;
  - the prefix a router is mounted on, which each router module chooses itself (`app.use('/auth', router)` at src/routers/auth_router.ts:7), so the logged route name need not be that prefix;
  - the route table of src/routers/auth_router.ts, whose `me` handlers neither src/middlewares/auth_middleware.ts nor src/controllers/auth_controller.ts defines.
- The directory listing that `initRoutes` reads is a parameter of `InitRoutes`.
- The TypeORM and Prisma clients are not modelled: src/client.ts, ormconfig.js, prisma/seed.ts and the query builders of src/services/users_service.ts and src/services/roles_service.ts.
  - The TypeORM `login` receives the user `findBy` returned as a parameter.
  - The TypeORM `create` receives the outcome of `save` (a generated uuid, or an error) as a parameter.
- Prisma's unique constraints are not modelled. A Prisma insert that violates one is outside the model; the service checks for conflicts before inserting.
- The repository filters take the column's own kind of value. A filter whose value has the wrong type, which Prisma rejects, is not modelled.
- express-validator is not modelled in general:
  - `isEmail` (validator.js) is an uninterpreted predicate;
  - an error keeps only its `param` and `msg`, without the `value` and `location` fields;
  - body values that are not strings are carried as opaque values.
- `path.extname` is the simple last-dot rule. Node's special cases for names ending in a dot, and for directory parts, are not modelled.
- String lengths count sequence elements, one per code point. JavaScript's UTF-16 code units are not modelled.
- Unauthenticated: src/controllers/controller.ts does not define `Unauthenticated(res)`. The model takes it as a 401 reply with a fixed body.
- Middleware.IsAuth: `isAuth` calls `userService.findOneBy`, but src/services/users_service.ts has no such function. The lookup is modelled as the Prisma repository's `findOneBy`; `IsAuth` as written and the Finding's "first user" rely on that substitution.
- Middleware.AsWrittenIgnoresTokenSubject: Prisma's `findFirst` without `orderBy` (src/repositories/user_repository.ts:33) does not fix which matching row comes back. Taking the first row in table order, and so alice in the Finding, is a modelling choice; that the token's subject is ignored holds whichever row is returned.
- Promises and async ordering are not modelled: every call is sequential, and a rejected promise is a `Failure` result.
- Tests under test/ are not modelled. Some of their expectations differ from the code, and the model follows the code:
  - two username errors on register;
  - the spelling `already`;
  - status 201 after register;
  - `Invalid value` as the only message for the one-character password of test/auth.mjs:128, where the code's `withMessage` gives the French length message.
- Logger output (src/utils/logger.ts) is not modelled.

## Findings

| source | as written | input that shows it | evidently intended | confidence | as-written member | corrected member |
|---|---|---|---|---|---|---|
| src/middlewares/middleware.ts:58-63 | `isAuth` looks up `user.id`, but `decodeJWT` (src/utils/crypto.ts:53-67) returns the whole verified payload `{exp, data}` and never parses `data`, so the id is undefined. Prisma drops the undefined filter and `findFirst` returns the first user. | users 1 (alice) and 2 (bob); a valid token issued by `login` for bob, whose payload is `{exp, data: "{\"id\":2}"}`. `isAuth` sets `req.user` to alice. | parse `data` and look the user up by its `id`, as src/utils/crypt.ts:28 does | medium, not executed | Middleware.AsWrittenAttachesWrongUser | Middleware.IssuedTokenIdentifiesUser |
