/**
 * The pure decisions of the Express application (src/application.ts): which
 * router files are mounted under which route, the not-found and error
 * handlers, and the check on the CORS origins.
 */
module Application {
  import opened Wrappers
  import opened Strings

  /** A router mounted by `initRoutes`: the module name required and the route name `initRoutes` logs for the router. */
  datatype Mount = Mount(filename: string, routeName: string)

  const RouterSuffix := "_router"

  /**
   * The route name derived from a router's module name: the text before the
   * first `_router` (or, when there is none, everything but the last
   * character, as `slice(0, -1)` does), with its first `_` turned into `-`.
   */
  function RouteName(filename: string): (r: string)
    ensures var k := IndexOfString(filename, RouterSuffix);
      |r| == if k >= 0 then k else if |filename| > 0 then |filename| - 1 else 0
    ensures forall j :: 0 <= j < |r| ==> r[j] == if j == IndexOf(filename, '_') then '-' else filename[j]
  {
    var prefix := SliceTo(filename, IndexOfString(filename, RouterSuffix));
    FirstUnderscoreOfPrefix(filename, prefix);
    ReplaceFirst(prefix, '_', '-')
  }

  /** The first `_` of a prefix is the first `_` of the whole name, if it lies in the prefix. */
  lemma FirstUnderscoreOfPrefix(s: string, p: string)
    requires p <= s
    ensures '_' in p ==> IndexOf(p, '_') == IndexOf(s, '_')
    ensures '_' !in p ==> IndexOf(s, '_') == -1 || IndexOf(s, '_') >= |p|
  {
    var i := IndexOf(s, '_');
    assert forall j :: 0 <= j < |p| ==> p[j] == s[j];
    if '_' in p {
      var k := IndexOf(p, '_');
      assert s[k] == '_';
      assert s[..k] == p[..k];
      assert 0 <= i <= k;
    } else {
      assert i == -1 || i >= |p|;
    }
  }

  /** `initRoutes` for one directory entry: names starting with `_` are skipped, the rest mounted by the text before the first dot. */
  function RouteFor(file: string): (m: Option<Mount>)
    ensures m.None? <==> StartsWith(file, "_")
    ensures m.Some? ==> m.value.filename == Split(file, '.')[0] && '.' !in m.value.filename
    ensures m.Some? ==> m.value.routeName == RouteName(m.value.filename)
  {
    SplitHead(file, '.');
    if StartsWith(file, "_") then None
    else
      var filename := BeforeFirst(file, '.');
      Some(Mount(filename, RouteName(filename)))
  }

  /** The mounts for a directory listing, in listing order. */
  function Mounts(files: seq<string>): (r: seq<Mount>)
    ensures |r| <= |files|
  {
    if files == [] then []
    else Mounts(files[..|files| - 1]) + match RouteFor(files[|files| - 1]) case Some(m) => [m] case None => []
  }

  /** Every file not starting with `_` is mounted. */
  lemma {:induction false} MountsComplete(files: seq<string>, k: nat)
    requires k < |files| && !StartsWith(files[k], "_")
    ensures RouteFor(files[k]).Some? && RouteFor(files[k]).value in Mounts(files)
  {
    var init := files[..|files| - 1];
    if k < |files| - 1 {
      assert init[k] == files[k];
      MountsComplete(init, k);
    }
  }

  /** Every mount comes from some file of the listing. */
  lemma {:induction false} MountsSound(files: seq<string>, i: nat)
    requires i < |Mounts(files)|
    ensures exists k :: 0 <= k < |files| && RouteFor(files[k]) == Some(Mounts(files)[i])
  {
    var init := files[..|files| - 1];
    if i < |Mounts(init)| {
      MountsSound(init, i);
      var k :| 0 <= k < |init| && RouteFor(init[k]) == Some(Mounts(init)[i]);
      assert files[k] == init[k];
    } else {
      assert RouteFor(files[|files| - 1]) == Some(Mounts(files)[i]);
    }
  }

  /** `initRoutes`: walks the `routers` directory listing and mounts every router it keeps. */
  method InitRoutes(files: seq<string>) returns (mounted: seq<Mount>)
    ensures mounted == Mounts(files)
    ensures forall k :: 0 <= k < |files| && !StartsWith(files[k], "_") ==>
      RouteFor(files[k]).Some? && RouteFor(files[k]).value in mounted
    ensures forall i :: 0 <= i < |mounted| ==>
      exists k :: 0 <= k < |files| && RouteFor(files[k]) == Some(mounted[i])
  {
    mounted := [];
    for i := 0 to |files|
      invariant mounted == Mounts(files[..i])
    {
      assert files[..i + 1][..i] == files[..i];
      var m := RouteFor(files[i]);
      if m.Some? {
        mounted := mounted + [m.value];
      }
    }
    assert files[..|files|] == files;
    forall k | 0 <= k < |files| && !StartsWith(files[k], "_")
      ensures RouteFor(files[k]).Some? && RouteFor(files[k]).value in mounted
    {
      MountsComplete(files, k);
    }
    forall i | 0 <= i < |mounted|
      ensures exists k :: 0 <= k < |files| && RouteFor(files[k]) == Some(mounted[i])
    {
      MountsSound(files, i);
    }
  }

  lemma AuthRouterMountsAuth()
    ensures RouteName("auth_router") == "auth"
  {
    var s := "auth_router";
    assert s[4..11] == RouterSuffix;
    forall j | 0 <= j < 4 ensures !OccursAt(s, RouterSuffix, j) {
      assert s[j..j + 7][0] == s[j];
    }
    IndexOfStringAt(s, RouterSuffix, 4);
  }

  /** For a module named `<w>_router`, the logged route name is `w` with its first `_` turned into `-`. */
  lemma RouterModuleRoute(w: string)
    requires forall j :: 0 <= j < |w| ==> !OccursAt(w + RouterSuffix, RouterSuffix, j)
    ensures RouteName(w + RouterSuffix) == ReplaceFirst(w, '_', '-')
  {
    var s := w + RouterSuffix;
    assert s[|w|..|w| + 7] == RouterSuffix;
    IndexOfStringAt(s, RouterSuffix, |w|);
    assert SliceTo(s, |w|) == w;
  }

  /** Without `_router` the last character of the module name is lost. */
  lemma MissingSuffixDropsLastChar()
    ensures RouteName("users") == "user"
  {
    var s := "users";
    forall j ensures !OccursAt(s, RouterSuffix, j) {
    }
  }

  /** private helpers such as `_base.ts` are not mounted. */
  lemma UnderscoreFileSkipped()
    ensures RouteFor("_base.ts") == None
  {
  }

  /** A JSON reply `{message}` with its status. */
  datatype Reply = Reply(status: int, message: string)

  /** `app.get('*')`: after every router, a GET (which Express also serves for HEAD) gets 404 `not_found`. */
  function NotFoundHandler(httpMethod: string): (r: Option<Reply>)
    ensures r.Some? <==> httpMethod in {"GET", "HEAD"}
    ensures r.Some? ==> r.value == Reply(404, "not_found")
  {
    if httpMethod == "GET" || httpMethod == "HEAD" then Some(Reply(404, "not_found")) else None
  }

  /** A value that reached the error handler: an `Error` instance with its name, or anything else thrown. */
  datatype Thrown = ErrorInstance(name: string) | OtherValue

  /** The error handler: an `Error` named `NotFoundError` is 404 `not_found`; everything else is logged and 500 `server_error`. */
  function ErrorHandler(err: Thrown): (r: Reply)
    ensures r.status == 404 <==> err.ErrorInstance? && err.name == "NotFoundError"
    ensures r.status == 404 ==> r.message == "not_found"
    ensures r.status != 404 ==> r == Reply(500, "server_error")
  {
    if err.ErrorInstance? && err.name == "NotFoundError" then Reply(404, "not_found")
    else Reply(500, "server_error")
  }

  /**
   * The CORS part of `initMiddlewares`: the comma-separated origins of
   * `CORS_ORIGINS`; construction throws when the variable is unset. An
   * empty value is still an array (of one empty origin) and passes.
   */
  function InitMiddlewares(corsOrigins: Option<string>): (r: Result<seq<string>, string>)
    ensures r.Failure? <==> corsOrigins.None?
    ensures r.Failure? ==> r.error == "Missing CORS origin(s)"
    ensures r.Success? ==> |r.value| >= 1 && Join(r.value, ',') == corsOrigins.value
    ensures r.Success? ==> forall i :: 0 <= i < |r.value| ==> ',' !in r.value[i]
  {
    match corsOrigins
    case None => Failure("Missing CORS origin(s)")
    case Some(s) => Success(Split(s, ','))
  }

  lemma EmptyCorsOriginsPass()
    ensures InitMiddlewares(Some("")) == Success([""])
  {
  }
}
