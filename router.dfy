/**
 * The router: an ordered table of (verb, path pattern, handler) entries,
 * tried in registration order; the first entry whose verb and pattern
 * both match the request handles it. Path patterns follow the router's
 * compilation of route strings: a literal path admits any number of
 * trailing slashes, `:slug` requires one non-empty segment without `/`, and
 * `*` admits every path.
 */
module Routing {
  import opened Wrappers

  /** A compiled route path. */
  datatype Pattern =
    | AnyPath              // "*"
    | Exact(path: string)  // a literal path such as "/articles"
    | Param(prefix: string) // prefix + "/:slug"

  /** The handlers registered in index.ts, in the order they are registered. */
  datatype Handler = OnOptions | OnPostArticles | OnGetArticles | OnGetSlug | OnGetExport | OnPostImport | OnAll

  datatype Route = Route(verb: string, pattern: Pattern, handler: Handler)

  /** The route table index.ts builds, in registration order. */
  const ROUTES: seq<Route> := [
    Route("OPTIONS", AnyPath, OnOptions),
    Route("POST", Exact("/articles"), OnPostArticles),
    Route("GET", Exact("/articles"), OnGetArticles),
    Route("GET", Param("/articles"), OnGetSlug),
    Route("GET", Exact("/export"), OnGetExport),
    Route("POST", Exact("/import"), OnPostImport),
    Route("ALL", AnyPath, OnAll)
  ]

  /** The endpoint a request reaches, with the `:slug` parameter where there is one. */
  datatype Endpoint =
    | Preflight
    | AddArticle
    | ListArticles
    | GetArticle(slug: Option<string>)
    | ExportArticles
    | ImportArticles
    | NotFound

  predicate AllSlashes(s: string) {
    forall i :: 0 <= i < |s| ==> s[i] == '/'
  }

  /** A literal route matches its own path followed by any number of slashes. */
  predicate ExactMatch(route: string, path: string) {
    |route| <= |path| && path[..|route|] == route && AllSlashes(path[|route|..])
  }

  /** The length of the longest prefix of `s` without a `/`. */
  function SegmentLength(s: string): (n: nat)
    ensures n <= |s|
    ensures forall i :: 0 <= i < n ==> s[i] != '/'
    ensures n < |s| ==> s[n] == '/'
  {
    if s == [] || s[0] == '/' then 0
    else
      var m := SegmentLength(s[1..]);
      assert forall i :: 1 <= i < m + 1 ==> s[i] == s[1..][i - 1];
      m + 1
  }

  /**
   * Matching `prefix/:slug`: the segment after `prefix/` when the path is
   * `prefix/`, one non-empty segment without `/`, and any number of
   * slashes; `None` otherwise.
   */
  function ParamMatch(prefix: string, path: string): (r: Option<string>)
    ensures r.Some? ==>
              var seg := r.value;
              seg != [] && (forall i :: 0 <= i < |seg| ==> seg[i] != '/') &&
              |prefix| + 1 + |seg| <= |path| && path[..|prefix|] == prefix && path[|prefix|] == '/' &&
              path[|prefix| + 1..|prefix| + 1 + |seg|] == seg &&
              AllSlashes(path[|prefix| + 1 + |seg|..])
    ensures ExactMatch(prefix, path) ==> r.None?
  {
    if |path| < |prefix| || path[..|prefix|] != prefix then None
    else
      var rest := path[|prefix|..];
      if rest == [] || rest[0] != '/' then None
      else
        var n := SegmentLength(rest[1..]);
        if n != 0 && AllSlashes(rest[1 + n..]) then
          assert rest[1..][0] == rest[1];
          Some(rest[1..1 + n])
        else None
  }

  /** Whether `route` accepts the request, and the parameter it binds. */
  function RouteMatch(route: Route, verb: string, path: string): (r: Option<Option<string>>)
    ensures r.Some? ==> route.verb == verb || route.verb == "ALL"
    ensures r.Some? ==> (r.value.Some? <==> route.pattern.Param?)
  {
    if route.verb != verb && route.verb != "ALL" then None
    else
      match route.pattern
      case AnyPath => Some(None)
      case Exact(p) => if ExactMatch(p, path) then Some(None) else None
      case Param(prefix) =>
        match ParamMatch(prefix, path)
        case None => None
        case Some(seg) => Some(Some(seg))
  }

  /** A matched route: its index in the table and the parameter it bound. */
  datatype Hit = Hit(index: nat, param: Option<string>)

  /** The router's loop over its table: the first route that matches. */
  function FirstMatch(routes: seq<Route>, verb: string, path: string): (r: Option<Hit>)
    ensures r.None? <==> forall i :: 0 <= i < |routes| ==> RouteMatch(routes[i], verb, path).None?
    ensures r.Some? ==>
              r.value.index < |routes| &&
              RouteMatch(routes[r.value.index], verb, path) == Some(r.value.param) &&
              forall i :: 0 <= i < r.value.index ==> RouteMatch(routes[i], verb, path).None?
  {
    if routes == [] then None
    else
      match RouteMatch(routes[0], verb, path)
      case Some(param) => Some(Hit(0, param))
      case None =>
        var rest := FirstMatch(routes[1..], verb, path);
        assert forall i :: 1 <= i < |routes| ==> routes[i] == routes[1..][i - 1];
        if rest.None? then None
        else Some(Hit(rest.value.index + 1, rest.value.param))
  }

  /** The endpoint the route table sends a request to. */
  function Dispatch(verb: string, path: string): Endpoint {
    match FirstMatch(ROUTES, verb, path)
    case None => NotFound
    case Some(hit) => EndpointOf(ROUTES[hit.index].handler, hit.param)
  }

  /** What calling a route's handler with the bound parameter amounts to. */
  function EndpointOf(handler: Handler, param: Option<string>): Endpoint {
      match handler
      case OnOptions => Preflight
      case OnPostArticles => AddArticle
      case OnGetArticles => ListArticles
      case OnGetSlug => GetArticle(param)
      case OnGetExport => ExportArticles
      case OnPostImport => ImportArticles
      case OnAll => NotFound
  }

  // ---------------------------------------------------------------------
  // What the table means
  // ---------------------------------------------------------------------

  /**
   * The route table read as a decision list: the endpoint each kind of
   * request reaches, written out case by case in registration order.
   */
  function RouteTable(verb: string, path: string): Endpoint {
    if verb == "OPTIONS" then Preflight
    else if verb == "POST" && ExactMatch("/articles", path) then AddArticle
    else if verb == "GET" && ExactMatch("/articles", path) then ListArticles
    else if verb == "GET" && ParamMatch("/articles", path).Some? then GetArticle(Some(ParamMatch("/articles", path).value))
    else if verb == "GET" && ExactMatch("/export", path) then ExportArticles
    else if verb == "POST" && ExactMatch("/import", path) then ImportArticles
    else NotFound
  }

  /** A route that matches after only non-matching ones is the one the router picks. */
  lemma FirstMatchAt(routes: seq<Route>, verb: string, path: string, i: nat)
    requires i < |routes| && RouteMatch(routes[i], verb, path).Some?
    requires forall j :: 0 <= j < i ==> RouteMatch(routes[j], verb, path).None?
    ensures FirstMatch(routes, verb, path) == Some(Hit(i, RouteMatch(routes[i], verb, path).value))
  {
    var r := FirstMatch(routes, verb, path);
    assert r.Some?;
    assert !(r.value.index < i);
    assert !(i < r.value.index);
  }

  /** Dispatching by first match over the table agrees with the decision list. */
  lemma DispatchFollowsTable(verb: string, path: string)
    ensures Dispatch(verb, path) == RouteTable(verb, path)
  {
    if verb == "OPTIONS" {
      DispatchAt(verb, path, 0);
    } else if verb == "POST" {
      DispatchPost(path);
    } else if verb == "GET" {
      DispatchGet(path);
    } else {
      DispatchAt(verb, path, 6);
    }
  }

  lemma DispatchPost(path: string)
    ensures Dispatch("POST", path) == RouteTable("POST", path)
  {
    if ExactMatch("/articles", path) {
      DispatchAt("POST", path, 1);
    } else if ExactMatch("/import", path) {
      DispatchAt("POST", path, 5);
    } else {
      DispatchAt("POST", path, 6);
    }
  }

  lemma DispatchGet(path: string)
    ensures Dispatch("GET", path) == RouteTable("GET", path)
  {
    if ExactMatch("/articles", path) {
      DispatchAt("GET", path, 2);
    } else if ParamMatch("/articles", path).Some? {
      DispatchGetSlug(path);
    } else {
      DispatchGetOther(path);
    }
  }

  lemma DispatchGetSlug(path: string)
    requires !ExactMatch("/articles", path) && ParamMatch("/articles", path).Some?
    ensures Dispatch("GET", path) == GetArticle(Some(ParamMatch("/articles", path).value))
  {
    DispatchAt("GET", path, 3);
  }

  lemma DispatchGetOther(path: string)
    requires !ExactMatch("/articles", path) && ParamMatch("/articles", path).None?
    ensures Dispatch("GET", path) == RouteTable("GET", path)
  {
    if ExactMatch("/export", path) {
      DispatchAt("GET", path, 4);
    } else {
      DispatchAt("GET", path, 6);
    }
  }

  /** When route `i` is the first to match, the request reaches that route's handler. */
  lemma DispatchAt(verb: string, path: string, i: nat)
    requires i < |ROUTES| && RouteMatch(ROUTES[i], verb, path).Some?
    requires forall j :: 0 <= j < i ==> RouteMatch(ROUTES[j], verb, path).None?
    ensures Dispatch(verb, path) == EndpointOf(ROUTES[i].handler, RouteMatch(ROUTES[i], verb, path).value)
  {
    FirstMatchAt(ROUTES, verb, path, i);
  }

  /** The slug route is reached only by GET and only with a segment to bind. */
  lemma SlugRouteBindsSlug(verb: string, path: string)
    ensures Dispatch(verb, path).GetArticle? ==> verb == "GET" && Dispatch(verb, path).slug.Some?
  {
    DispatchFollowsTable(verb, path);
  }

  /** The last route accepts every request, so the router always has an answer. */
  lemma EveryRequestMatches(verb: string, path: string)
    ensures FirstMatch(ROUTES, verb, path).Some?
  {
    assert RouteMatch(ROUTES[6], verb, path).Some?;
  }

  /** Preflight is registered first: every OPTIONS request is answered by it, whatever its path. */
  lemma OptionsIsPreflight(path: string)
    ensures Dispatch("OPTIONS", path) == Preflight
  {
    DispatchFollowsTable("OPTIONS", path);
  }

  /** A method with no route of its own (PUT, DELETE, PATCH, ...) reaches only the fallback. */
  lemma OtherMethodsNotFound(verb: string, path: string)
    requires verb != "GET" && verb != "POST" && verb != "OPTIONS"
    ensures Dispatch(verb, path) == NotFound
  {
    DispatchFollowsTable(verb, path);
  }

  /**
   * The GET routes: list, lookup by slug, export, and the fallback for
   * every other path. The slug route needs a segment after `/articles/`,
   * so it never competes with the list route.
   */
  lemma GetRoutes(path: string)
    ensures Dispatch("GET", path) == ListArticles <==> ExactMatch("/articles", path)
    ensures Dispatch("GET", path) == ExportArticles <==> ExactMatch("/export", path)
    ensures Dispatch("GET", path).GetArticle? <==> ParamMatch("/articles", path).Some?
    ensures Dispatch("GET", path).GetArticle? ==>
              Dispatch("GET", path).slug == Some(ParamMatch("/articles", path).value)
    ensures Dispatch("GET", path) == NotFound <==>
              !ExactMatch("/articles", path) && ParamMatch("/articles", path).None? &&
              !ExactMatch("/export", path)
  {
    DispatchFollowsTable("GET", path);
    if ExactMatch("/export", path) {
      ExactPathsDiffer("/articles", "/export", path);
    }
  }

  /** The POST routes: add, import, and the fallback for every other path. */
  lemma PostRoutes(path: string)
    ensures Dispatch("POST", path) == AddArticle <==> ExactMatch("/articles", path)
    ensures Dispatch("POST", path) == ImportArticles <==> ExactMatch("/import", path)
    ensures Dispatch("POST", path) == NotFound <==>
              !ExactMatch("/articles", path) && !ExactMatch("/import", path)
  {
    DispatchFollowsTable("POST", path);
    if ExactMatch("/import", path) {
      ExactPathsDiffer("/articles", "/import", path);
    }
  }

  /** Two literal routes whose paths differ at their second character accept no common path. */
  lemma ExactPathsDiffer(a: string, b: string, path: string)
    requires |a| > 1 && |b| > 1 && a[1] != b[1]
    requires ExactMatch(b, path)
    ensures !(|a| <= |path| && path[..|a|] == a)
  {
    assert path[..|b|][1] == path[1];
    if |a| <= |path| {
      assert path[..|a|][1] == path[1];
    }
  }

  /** `prefix/seg` followed by slashes reaches the slug route with `seg` as its parameter. */
  lemma ParamMatchesSegment(prefix: string, seg: string, slashes: string)
    requires seg != [] && forall i :: 0 <= i < |seg| ==> seg[i] != '/'
    requires AllSlashes(slashes)
    ensures ParamMatch(prefix, prefix + "/" + seg + slashes) == Some(seg)
  {
    var path := prefix + "/" + seg + slashes;
    assert path[..|prefix|] == prefix;
    var rest := path[|prefix|..];
    assert rest == "/" + seg + slashes;
    assert rest[1..] == seg + slashes;
    SegmentLengthOf(seg, slashes);
    assert rest[1 + |seg|..] == slashes;
    assert rest[1..1 + |seg|] == seg;
  }

  lemma SegmentLengthOf(seg: string, slashes: string)
    requires forall i :: 0 <= i < |seg| ==> seg[i] != '/'
    requires AllSlashes(slashes)
    ensures SegmentLength(seg + slashes) == |seg|
  {
    var t := seg + slashes;
    assert forall i :: 0 <= i < |seg| ==> t[i] == seg[i];
    if slashes != [] {
      assert t[|seg|] == slashes[0];
    }
  }

  /** Requesting a slug under `/articles` reaches the lookup with that slug. */
  lemma GetBySlug(seg: string, slashes: string)
    requires seg != [] && forall i :: 0 <= i < |seg| ==> seg[i] != '/'
    requires AllSlashes(slashes)
    ensures Dispatch("GET", "/articles/" + seg + slashes) == GetArticle(Some(seg))
  {
    var path := "/articles/" + seg + slashes;
    assert path == "/articles" + "/" + seg + slashes;
    ParamMatchesSegment("/articles", seg, slashes);
    GetRoutes(path);
  }

  /** There is no export route under `/articles`: that path is a lookup of the slug "export". */
  lemma ArticlesExportIsASlug()
    ensures Dispatch("GET", "/articles/export") == GetArticle(Some("export"))
  {
    assert "/articles/export" == "/articles/" + "export" + "";
    GetBySlug("export", "");
  }
}
