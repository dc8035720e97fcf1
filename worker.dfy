/**
 * The worker's entry point: a request is dispatched through the route
 * table to one handler, which runs against the table. The store's answers
 * and the clocks are inputs, gathered in `World`.
 */
module Worker {
  import opened Wrappers
  import opened Store
  import opened Http
  import opened Routing
  import opened Handlers

  /** What the model needs of a request: its method, its URL's path and its parsed body. */
  datatype Request = Request(verb: string, path: string, body: Payload)

  /**
   * The outside world during one request: the store's answer to a write,
   * the error a read may throw, the store's clock and the handler's clock.
   */
  datatype World = World(commit: Commit, readFault: Option<string>, timestamp: string, now: string)

  /** The outcome of one request against a table holding `rows` with next id `nextId`. */
  function Respond(rows: seq<Article>, nextId: nat, req: Request, world: World): (o: Outcome)
    ensures HasCors(o.response)
    ensures |rows| <= |o.rows| && o.rows[..|rows|] == rows
    ensures WellFormed(rows, nextId) && 0 < nextId ==> WellFormed(o.rows, o.nextId) && 0 < o.nextId
    ensures var e := Dispatch(req.verb, req.path);
      !(e.AddArticle? || e.ImportArticles?) ==> o.rows == rows && o.nextId == nextId
    ensures Dispatch(req.verb, req.path) == Preflight ==> o.response == Response(200, CORS_HEADERS, NoBody)
    ensures Dispatch(req.verb, req.path) == NotFound ==> o.response == TextResponse(404, "Not Found")
  {
    SlugRouteBindsSlug(req.verb, req.path);
    match Dispatch(req.verb, req.path)
    case Preflight => Outcome(rows, nextId, Response(200, CORS_HEADERS, NoBody))
    case AddArticle => AddArticleOutcome(rows, nextId, req.body, world.commit, world.timestamp)
    case ListArticles => Outcome(rows, nextId, ListResponse(rows, world.readFault))
    case GetArticle(slug) => Outcome(rows, nextId, LookupResponse(rows, slug.value, world.readFault))
    case ExportArticles => Outcome(rows, nextId, ExportResponse(rows, world.readFault))
    case ImportArticles =>
      ImportArticlesOutcome(rows, nextId, req.body, world.commit, world.now, world.timestamp)
    case NotFound => Outcome(rows, nextId, TextResponse(404, "Not Found"))
  }

  /** `router.handle`: answers one request, changing the table as its handler does. */
  method Handle(db: Table, req: Request, world: World) returns (resp: Response)
    requires db.Valid()
    modifies db
    ensures db.Valid()
    ensures Outcome(db.rows, db.nextId, resp) == Respond(old(db.rows), old(db.nextId), req, world)
  {
    SlugRouteBindsSlug(req.verb, req.path);
    match Dispatch(req.verb, req.path)
    case Preflight =>
      resp := Response(200, CORS_HEADERS, NoBody);
    case AddArticle =>
      resp := Handlers.AddArticle(db, req.body, world.commit, world.timestamp);
    case ListArticles =>
      resp := ListResponse(db.rows, world.readFault);
    case GetArticle(slug) =>
      resp := LookupResponse(db.rows, slug.value, world.readFault);
    case ExportArticles =>
      resp := ExportResponse(db.rows, world.readFault);
    case ImportArticles =>
      resp := Handlers.ImportArticles(db, req.body, world.commit, world.now, world.timestamp);
    case NotFound =>
      resp := TextResponse(404, "Not Found");
  }

  /** Every OPTIONS request is a preflight: 200, the cross-origin headers, no body, no change. */
  lemma PreflightAnswersEveryPath(rows: seq<Article>, nextId: nat, path: string, body: Payload, world: World)
    ensures var o := Respond(rows, nextId, Request("OPTIONS", path, body), world);
      o == Outcome(rows, nextId, Response(200, CORS_HEADERS, NoBody))
  {
    OptionsIsPreflight(path);
  }

  /** PUT, DELETE and every other method without a route answer 404 "Not Found" and change nothing. */
  lemma UnroutedMethodsAreNotFound(rows: seq<Article>, nextId: nat, req: Request, world: World)
    requires req.verb != "GET" && req.verb != "POST" && req.verb != "OPTIONS"
    ensures Respond(rows, nextId, req, world) == Outcome(rows, nextId, TextResponse(404, "Not Found"))
  {
    OtherMethodsNotFound(req.verb, req.path);
  }

  /** GET requests never change the table. */
  lemma GetChangesNothing(rows: seq<Article>, nextId: nat, path: string, body: Payload, world: World)
    ensures var o := Respond(rows, nextId, Request("GET", path, body), world);
      o.rows == rows && o.nextId == nextId
  {
    GetRoutes(path);
  }
}
