/**
 The job router (`server/routes/jobRoutes.js`): the authentication middleware
 runs first for every request that reaches the router, then the routes are
 tried in registration order and the first one whose method and path match
 handles the request. Paths are relative to the router's mount point and are
 matched as Express does by default: case-insensitively, with one optional
 trailing slash, and `:id` standing for one non-empty segment.
 */
module JobRoutes {
  import opened Http
  import Text
  import UserModel

  datatype Method = Get | Head | Post | Put | Delete | OtherMethod(name: string)

  /** A route's path pattern: `/`, a fixed one-segment path, or `/:id`. */
  datatype Pattern = Root | Fixed(name: string) | IdParam

  datatype Handler = CreateJob | GetJobs | GetJobStats | GetJob | UpdateJob | DeleteJob

  datatype Route = Route(verb: Method, pattern: Pattern, handler: Handler)

  /** The routes in the order they are registered. */
  const Routes: seq<Route> := [
    Route(Post, Root, CreateJob),
    Route(Get, Root, GetJobs),
    Route(Get, Fixed("stats"), GetJobStats),
    Route(Get, IdParam, GetJob),
    Route(Put, IdParam, UpdateJob),
    Route(Delete, IdParam, DeleteJob)
  ]

  datatype Request = Request(verb: Method, path: string)

  /** What the authentication middleware decided (its source is not part of
      this model): the request's user, or a rejection. */
  datatype AuthResult = Authenticated(user: UserModel.UserId) | Rejected

  /** A handler invocation with its `req.params.id` (empty for routes without
      a parameter). */
  datatype Call = Call(handler: Handler, id: string)

  /** How the router disposes of a request. */
  datatype Outcome =
    | Unauthenticated                              // the middleware answered 401
    | NoRoute                                      // no route matched; Express answers 404
    | Dispatched(user: UserModel.UserId, call: Call)

  /** The path with one trailing slash removed. */
  function DropTrailingSlash(path: string): (r: string)
    ensures r == path || (path == r + "/")
  {
    if |path| > 0 && path[|path| - 1] == '/' then path[..|path| - 1] else path
  }

  /** A `get` route also answers `HEAD` requests. */
  predicate MethodMatches(routeMethod: Method, m: Method)
  {
    routeMethod == m || (routeMethod == Get && m == Head)
  }

  datatype Match = NoMatch | Matched(id: string)

  /** Express's path rule for this router, with `strict` and `caseSensitive`
      off: one trailing `/` is ignored, a fixed segment matches regardless of
      ASCII case, and `/:id` matches exactly one non-empty segment, which it
      captures. */
  function MatchPath(pattern: Pattern, path: string): (r: Match)
    ensures pattern == IdParam ==>
              (r.Matched? <==> exists id :: id != "" && '/' !in id && DropTrailingSlash(path) == "/" + id)
    ensures pattern == IdParam && r.Matched? ==> DropTrailingSlash(path) == "/" + r.id
  {
    var t := DropTrailingSlash(path);
    match pattern
    case Root => if t == "" then Matched("") else NoMatch
    case Fixed(name) => if Text.ToLower(t) == "/" + name then Matched("") else NoMatch
    case IdParam =>
      if |t| >= 2 && t[0] == '/' && '/' !in t[1..] then Matched(t[1..]) else NoMatch
  }

  predicate RouteMatches(route: Route, req: Request)
  {
    MethodMatches(route.verb, req.verb) && MatchPath(route.pattern, req.path).Matched?
  }

  /** The first route from position `k` on that matches the request. */
  function FirstMatch(routes: seq<Route>, req: Request, k: nat): (r: Option<nat>)
    requires k <= |routes|
    ensures r.Some? ==> k <= r.value < |routes| && RouteMatches(routes[r.value], req)
    ensures r.Some? ==> forall j :: k <= j < r.value ==> !RouteMatches(routes[j], req)
    ensures r.None? ==> forall j :: k <= j < |routes| ==> !RouteMatches(routes[j], req)
    decreases |routes| - k
  {
    if k == |routes| then None
    else if RouteMatches(routes[k], req) then Some(k)
    else FirstMatch(routes, req, k + 1)
  }

  /** The router: authentication first, then the first matching route in
      registration order. A handler only ever runs for an authenticated
      request, on behalf of the user the middleware identified. */
  function Dispatch(req: Request, auth: AuthResult): (r: Outcome)
    ensures r.Unauthenticated? <==> auth.Rejected?
    ensures r.Dispatched? ==> auth == Authenticated(r.user)
    ensures r.Dispatched? ==> exists k :: 0 <= k < |Routes| && RouteMatches(Routes[k], req)
                                         && (forall j :: 0 <= j < k ==> !RouteMatches(Routes[j], req))
                                         && r.call == Call(Routes[k].handler, MatchPath(Routes[k].pattern, req.path).id)
    ensures r.NoRoute? <==> auth.Authenticated? && forall k :: 0 <= k < |Routes| ==> !RouteMatches(Routes[k], req)
  {
    match auth
    case Rejected => Unauthenticated
    case Authenticated(user) =>
      match FirstMatch(Routes, req, 0)
      case None => NoRoute
      case Some(k) => Dispatched(user, Call(Routes[k].handler, MatchPath(Routes[k].pattern, req.path).id))
  }

  /** `GET /stats` (in any letter case, with or without a trailing slash)
      reaches `getJobStats` and not `getJob`, because its route is registered
      before `/:id`. */
  lemma StatsWinsOverId(path: string, user: UserModel.UserId)
    requires Text.ToLower(DropTrailingSlash(path)) == "/stats"
    ensures Dispatch(Request(Get, path), Authenticated(user)) == Dispatched(user, Call(GetJobStats, ""))
  {
    var req := Request(Get, path);
    var t := DropTrailingSlash(path);
    assert MatchPath(Root, path).NoMatch? by {
      assert |Text.ToLower(t)| == |t|;
    }
    assert RouteMatches(Routes[2], req);
  }

  /** `POST /` creates a job and `GET /` lists them. */
  lemma RootRoutes(user: UserModel.UserId)
    ensures Dispatch(Request(Post, "/"), Authenticated(user)) == Dispatched(user, Call(CreateJob, ""))
    ensures Dispatch(Request(Get, "/"), Authenticated(user)) == Dispatched(user, Call(GetJobs, ""))
  {
    assert RouteMatches(Routes[0], Request(Post, "/"));
    assert !RouteMatches(Routes[0], Request(Get, "/"));
    assert RouteMatches(Routes[1], Request(Get, "/"));
  }

  /** `/<id>` is matched by `/:id`, capturing the id, and not by `/`. */
  lemma IdPath(id: string)
    requires id != "" && '/' !in id
    ensures MatchPath(IdParam, "/" + id) == Matched(id)
    ensures MatchPath(Root, "/" + id) == NoMatch
  {
    var path := "/" + id;
    assert path[|path| - 1] == id[|id| - 1];
    assert id[|id| - 1] in id;
    assert DropTrailingSlash(path) == path;
    assert path[1..] == id;
  }

  /** A route that does not match passes the request on to the next. */
  lemma Skip(req: Request, k: nat)
    requires k < |Routes| && !RouteMatches(Routes[k], req)
    ensures FirstMatch(Routes, req, k) == FirstMatch(Routes, req, k + 1)
  {
  }

  /** A route that matches takes the request. */
  lemma Take(req: Request, user: UserModel.UserId, k: nat)
    requires k < |Routes| && RouteMatches(Routes[k], req)
    requires FirstMatch(Routes, req, 0) == FirstMatch(Routes, req, k)
    ensures Dispatch(req, Authenticated(user))
            == Dispatched(user, Call(Routes[k].handler, MatchPath(Routes[k].pattern, req.path).id))
  {
  }

  /** `/<id>` is not `/stats` when the id does not read `stats`. */
  lemma StatsIsNotAnId(id: string)
    requires id != "" && '/' !in id && Text.ToLower(id) != "stats"
    ensures MatchPath(Fixed("stats"), "/" + id) == NoMatch
  {
    var path := "/" + id;
    IdPath(id);
    assert DropTrailingSlash(path) == path;
    assert Text.ToLower(path)[1..] == Text.ToLower(id);
  }

  /** `GET /<id>` reaches `getJob` with that id, unless the id reads `stats`. */
  lemma GetIdRoute(id: string, user: UserModel.UserId)
    requires id != "" && '/' !in id && Text.ToLower(id) != "stats"
    ensures Dispatch(Request(Get, "/" + id), Authenticated(user)) == Dispatched(user, Call(GetJob, id))
  {
    var req := Request(Get, "/" + id);
    IdPath(id);
    StatsIsNotAnId(id);
    Skip(req, 0);
    Skip(req, 1);
    Skip(req, 2);
    Take(req, user, 3);
  }

  /** `PUT /<id>` reaches `updateJob` with that id. */
  lemma PutIdRoute(id: string, user: UserModel.UserId)
    requires id != "" && '/' !in id
    ensures Dispatch(Request(Put, "/" + id), Authenticated(user)) == Dispatched(user, Call(UpdateJob, id))
  {
    IdPath(id);
    var req := Request(Put, "/" + id);
    Skip(req, 0);
    Skip(req, 1);
    Skip(req, 2);
    Skip(req, 3);
    Take(req, user, 4);
  }

  /** `DELETE /<id>` reaches `deleteJob` with that id. */
  lemma DeleteIdRoute(id: string, user: UserModel.UserId)
    requires id != "" && '/' !in id
    ensures Dispatch(Request(Delete, "/" + id), Authenticated(user)) == Dispatched(user, Call(DeleteJob, id))
  {
    IdPath(id);
    var req := Request(Delete, "/" + id);
    Skip(req, 0);
    Skip(req, 1);
    Skip(req, 2);
    Skip(req, 3);
    Skip(req, 4);
    Take(req, user, 5);
  }

  /** `GET`, `PUT` and `DELETE` on `/<id>` reach `getJob`, `updateJob` and
      `deleteJob` with that id — for `GET`, unless the id reads `stats`. */
  lemma IdRoutes(id: string, user: UserModel.UserId)
    requires id != "" && '/' !in id
    ensures Text.ToLower(id) != "stats" ==>
              Dispatch(Request(Get, "/" + id), Authenticated(user)) == Dispatched(user, Call(GetJob, id))
    ensures Dispatch(Request(Put, "/" + id), Authenticated(user)) == Dispatched(user, Call(UpdateJob, id))
    ensures Dispatch(Request(Delete, "/" + id), Authenticated(user)) == Dispatched(user, Call(DeleteJob, id))
  {
    if Text.ToLower(id) != "stats" {
      GetIdRoute(id, user);
    }
    PutIdRoute(id, user);
    DeleteIdRoute(id, user);
  }

  /** A rejected request never reaches a handler, whatever its method and
      path. */
  lemma AuthGuardsEveryRoute(req: Request)
    ensures Dispatch(req, Rejected) == Unauthenticated
  {
  }
}
