# Article API worker — a Dafny model

This project models `index.ts`, a serverless worker that exposes a small
article API over an SQL table (`articles`). A router tries its routes in
registration order and answers each request with the first route that
matches:

- `OPTIONS *` — the cross-origin preflight;
- `POST /articles` — add one article, with its slug computed from the title;
- `GET /articles` — list every article, newest first;
- `GET /articles/:slug` — the first article with that slug, or 404;
- `GET /export` — every article as a JSON attachment;
- `POST /import` — insert an array of articles in one batch;
- `ALL *` — 404 `Not Found`.

Every response carries the three cross-origin headers.

Modules:

- `Wrappers` — `Option` and `Result`.
- `Js` — the JavaScript values a request body can hold. It defines
  truthiness, `||` and property access.
- `Slugs` — `slugify` as its five string passes, and what they add up to.
  The result is always a slug (lower-case letters, digits and single inner
  hyphens). `slugify` is idempotent and keeps exactly the title's letters
  and digits.
- `Store` — the table's rows, the record of parameters an INSERT binds and
  the table invariant. It also holds the `Table` class, whose insert
  methods append rows with auto-incremented ids.
- `Queries` — the two SELECTs. One is the first row with a given slug; the
  other orders rows by `created_at` descending.
- `Http` — responses, header maps and the ways a handler can fail.
- `Handlers` — the five handlers. The two writing handlers (add and
  import) are functions from the table state and the store's answer to an
  `Outcome` (new rows, next id, response), and also methods that take the
  `Table` and update it, proved to produce what their functions give. The
  three reading handlers are functions from the rows and a read fault to a
  `Response`.
- `Routing` — the route table, the router's path matching and first-match
  dispatch. It is proved equal to a decision list written out case by case.
- `Worker` — `router.handle`: dispatch, then the chosen handler. It is a
  function `Respond` and a method `Handle` that takes the `Table` and
  updates it.

The store's answers and the clocks are parameters:

- `Commit` — the result of a write: committed, not committed, or thrown
  with a message.
- `readFault` — a read that throws.
- `timestamp` — the store's `CURRENT_TIMESTAMP` default.
- `now` — the handler's `new Date().toISOString()`.

## Model

| member | source | states |
|---|---|---|
| Slugs.LeadingRun | index.ts:23 | the leading run of characters satisfying a predicate: every character in it satisfies the predicate and the one after it does not |
| Slugs.TrailingRun | index.ts:23 | the same for the trailing run |
| Slugs.TrimLeft | index.ts:23 | what is left after removing the leading run does not start with a removed character |
| Slugs.TrimRight | index.ts:23 | what is left after removing the trailing run does not end with a removed character |
| Slugs.LowerHasNoUpper | index.ts:22 | lowercasing keeps the length, maps each character by itself, and leaves no upper-case ASCII letter |
| Slugs.KeepShape | index.ts:24 | removing `[^\w\s-]` leaves only word characters, whitespace and hyphens |
| Slugs.RunsShape | index.ts:25 | replacing each run of `[\s_-]` by one hyphen leaves no whitespace, no underscore and no two hyphens in a row |
| Slugs.StripHyphensShape | index.ts:26 | stripping leading and trailing hyphens from such a string gives a slug |
| Slugs.SlugifyShape | index.ts:20-27 | every title's slug consists of lower-case ASCII letters, digits and hyphens; it has no hyphen at either end and no two hyphens in a row |
| Slugs.SlugifyFixesSlugs | index.ts:20-27 | a string that is already a slug is its own slug |
| Slugs.SlugifyIdempotent | index.ts:20-27 | slugifying a slug changes nothing |
| Slugs.SlugifyKeepsLettersAndDigits | index.ts:20-27 | the letters and digits of the slug are exactly those of the title, lower-cased, in order |
| Slugs.SlugEmptyIffNoLettersOrDigits | index.ts:20-27 | the slug is empty exactly when the title has no ASCII letter or digit |
| Slugs.RunsAppend | index.ts:25 | collapsing a concatenation is collapsing each part, the second continuing the separator run the first ends in |
| Slugs.RunsOfSeparators | index.ts:25 | a whole run of whitespace, `_` and `-` becomes exactly one `-` (nothing when it continues a run) |
| Slugs.SlugsJoin | index.ts:25-26 | two non-empty slugs joined directly or by one `-` form a slug |
| Slugs.SeparatorsBecomeOneHyphen | index.ts:20-27 | between two words, any non-empty run of whitespace, `_` and `-` becomes exactly one `-`: `slugify(a + sep + b) == a + "-" + b` |
| Slugs.DroppedCharacterJoins | index.ts:20-27 | between two words, a character outside `[\w\s-]` disappears: `slugify(a + c + b) == a + b` |
| Store.RowOf | index.ts:39-45 | the row an insert creates has the given id and title, a slug, and the bound `created_at` or else the store's timestamp |
| Store.RowsOf | index.ts:113-131 | a batch creates one row per statement, in order, with consecutive ids |
| Store.AppendOneKeepsWellFormed | index.ts:41-45 | appending the row of one insertion keeps the table invariant |
| Store.AppendKeepsWellFormed | index.ts:113-131 | appending a batch's rows keeps ids increasing and within `nextId`, and keeps each slug that of its title |
| Store.Table.Insert | index.ts:41-45 | appends the row for one insertion and bumps the next id (not counted: uses `old`) |
| Store.Table.InsertAll | index.ts:131 | appends the rows of a batch and advances the next id by its size (not counted: uses `old`) |
| Queries.FirstWithSlug | index.ts:75-78 | none exactly when no row has the slug; otherwise the first row in table order that has it |
| Queries.FirstWithSlugAfterAppend | index.ts:75-78 | rows added later never shadow an earlier row with the same slug |
| Queries.TextLeTotal | index.ts:62 | any two texts are ordered one way or the other by code-point comparison |
| Queries.TextLeTransitive | index.ts:62 | the text order is transitive |
| Queries.KeyLeTotal | index.ts:62 | any two `created_at` values are ordered one way or the other |
| Queries.KeyLeTransitive | index.ts:62 | the `created_at` order is transitive |
| Queries.InsertByAge | index.ts:62 | inserting into a newest-first list adds exactly one row and keeps it newest first |
| Queries.NewestFirst | index.ts:62 | `ORDER BY created_at DESC` returns the same multiset of rows, newest first |
| Http.TextResponse | index.ts:36 | a text response has the given status and the cross-origin headers |
| Http.FaultResponse | index.ts:54-56 | the `catch` answer is a 500 with the cross-origin headers |
| Http.JsonResponse | index.ts:48-51 | a JSON response has the given status, the cross-origin headers and `Content-Type: application/json` |
| Http.HeaderMapsCarryCors | index.ts:10-14 | the plain, JSON and export header maps all carry the three cross-origin headers; the JSON and export maps set their own `Content-Type` and `Content-Disposition` |
| Handlers.ArticleToAdd | index.ts:32-44 | 400 `Title is required` exactly when the body parses, is not null or undefined, and its title is falsy; an insertion exactly when the title is a non-empty string, with `status` defaulting to `Draft` and the other fields passed through; every other body is a 500 |
| Handlers.AddArticleOutcome | index.ts:30-56 | 201 exactly when the body is valid and the insert commits; a 201 appends one row with the next id and answers the success message with the row's slug; otherwise nothing changes and the answer is the 400, `Failed to add article` or the store's error; the table invariant is kept; every answer carries the cross-origin headers |
| Handlers.ArticleAdded | index.ts:41-51 | a committed insert: the old rows plus the one new row, the next id advanced by one, 201 with the new row's slug, and the table invariant kept |
| Handlers.AddedRow | index.ts:39-51 | after a 201, the table is the old rows plus one row with id `nextId`, the body's title, its slug, status defaulting to `Draft` and the store's timestamp, and the answer reports that slug |
| Handlers.AddArticle | index.ts:30-56 | the POST handler, updating the table it is given: its new rows, next id and response are those `AddArticleOutcome` gives (not counted: uses `old`) |
| Handlers.ListResponse | index.ts:60-69 | a read error gives 500 with its message; otherwise 200 under the JSON headers with every row exactly once, newest first |
| Handlers.LookupResponse | index.ts:72-86 | 404 `Article not found` exactly when no row has the slug; otherwise 200 with the first row that has it; a read error gives 500 |
| Handlers.ExportResponse | index.ts:89-102 | 200 with every row in table order under `Content-Type: application/json` and `Content-Disposition: attachment; filename="articles.json"`; a read error gives 500 |
| Handlers.ImportedArticle | index.ts:113-128 | one element maps to an insertion exactly when its title is a string, with defaults `Draft`, `''`, `null` and the clock's time; elements that are null or undefined, or whose title is not a string, throw a TypeError |
| Handlers.ImportedArticles | index.ts:113-129 | the whole array maps exactly when every element does, element by element in order; otherwise the map throws a TypeError |
| Handlers.ArticlesToImport | index.ts:105-129 | 400 `Expected an array of articles` exactly when the body parses and is not an array; otherwise the element-wise insertions, or a 500 |
| Handlers.ImportArticlesOutcome | index.ts:105-142 | the corrected import handler of the finding: 201 exactly when the batch is valid and commits; a 201 appends one row per element with consecutive ids and reports the element count; otherwise nothing changes; the table invariant is kept |
| Handlers.ImportedRows | index.ts:113-131 | after a 201, row `i` of the new rows has id `nextId + i`, the element's title and slug, and status defaulting to `Draft` |
| Handlers.ImportArticles | index.ts:105-143 | the corrected import handler, updating the table it is given: its new state and response are those `ImportArticlesOutcome` gives (not counted: uses `old`) |
| Handlers.ImportAnswerAsWritten | index.ts:131-139 | the answer as written: 201 exactly when the value the batch resolves to has a truthy `success` property |
| Handlers.ImportAsWrittenReportsFailure | index.ts:131-139 | when the batch resolves to an array of successful results, as written the answer is 500 `Failed to import articles` |
| Handlers.ImportArticlesOutcomeAsWritten | index.ts:105-142 | the import handler as written: a valid array that the store commits appends its rows exactly as intended, yet is never answered 201; every other body or store answer gives what `ImportArticlesOutcome` gives |
| Handlers.ImportAsWrittenLosesCommittedBatch | index.ts:131-139 | for a valid array that commits, the as-written and the corrected handler leave the same table, the old rows followed by one row per element, but as written the answer is 500 `Failed to import articles` where the corrected answer is 201 with the count |
| Routing.ParamMatch | index.ts:72 | `/articles/:slug` matches `/articles/` plus one non-empty segment without `/` plus any trailing slashes, binding that segment; `/articles` itself (with or without trailing slashes) does not match |
| Routing.RouteMatch | index.ts:17 | a route matches only a request with its own method, or any method for `ALL`; a match binds a parameter exactly when the route has `:slug` |
| Routing.FirstMatch | index.ts:148-150 | the router picks the first matching route in registration order, or none when no route matches |
| Routing.FirstMatchAt | index.ts:148-150 | a route that matches after only non-matching ones is the one picked |
| Routing.DispatchFollowsTable | index.ts:16-146 | first-match dispatch over the seven registered routes equals the decision list: OPTIONS, POST /articles, GET /articles, GET /articles/:slug, GET /export, POST /import, otherwise not found |
| Routing.DispatchAt | index.ts:16-146 | when route `i` is the first to match, the request reaches that route's handler |
| Routing.SlugRouteBindsSlug | index.ts:72-74 | the slug handler is reached only by GET and always with a slug bound |
| Routing.EveryRequestMatches | index.ts:146 | the fallback matches every request, so the router always answers |
| Routing.OptionsIsPreflight | index.ts:17 | every OPTIONS request reaches the preflight, whatever its path |
| Routing.OtherMethodsNotFound | index.ts:146 | a method other than GET, POST and OPTIONS reaches only the fallback |
| Routing.GetRoutes | index.ts:60-89 | GET lists exactly on `/articles`, exports exactly on `/export`, and looks up exactly on `/articles/<segment>` with that segment; every other path is not found |
| Routing.PostRoutes | index.ts:30-105 | POST adds exactly on `/articles`, imports exactly on `/import`, and is not found elsewhere |
| Routing.ExactPathsDiffer | index.ts:30-105 | two literal routes whose paths differ at their second character match no common path |
| Routing.ParamMatchesSegment | index.ts:72 | `prefix/seg` plus trailing slashes binds `seg` |
| Routing.SegmentLength | index.ts:72 | the length of the leading part of a path without `/` |
| Routing.GetBySlug | index.ts:72-74 | a GET of `/articles/<seg>` reaches the lookup of `seg` |
| Routing.ArticlesExportIsASlug | index.ts:72-89 | `GET /articles/export` is a lookup of the slug `export`, not an export |
| Worker.Respond | index.ts:148-150 | `router.handle` with the corrected import handler: every answer carries the cross-origin headers; old rows are never changed or removed; the table invariant is kept; only add and import change the table; a preflight is 200 with no body; an unrouted request is 404 `Not Found` |
| Worker.Handle | index.ts:148-150 | `router.handle` with the corrected import handler, updating the table it is given: its new state and response are those `Respond` gives (not counted: uses `old`) |
| Worker.PreflightAnswersEveryPath | index.ts:17 | every OPTIONS request answers 200 with the cross-origin headers and no body, and changes nothing |
| Worker.UnroutedMethodsAreNotFound | index.ts:146 | PUT, DELETE and every other method without a route answer 404 `Not Found` and change nothing |
| Worker.GetChangesNothing | index.ts:60-102 | no GET request changes the table |

## Left out

- Lowercasing is ASCII only. `toLowerCase` maps all of Unicode, including
  the Kelvin sign to `k` and `İ` to two characters; the model leaves
  non-ASCII characters as they are.
- `\w` and `\s` are the JavaScript sets, ASCII word characters plus the
  JavaScript whitespace and line terminators; other Unicode classes play no part.
- The SQL store: SQL text, type errors from binding a value the store does
  not accept, and the atomicity of a batch. The store's result is an
  input (`Commit`).
- The store's `created_at` default is the `timestamp` parameter. Column
  defaults for other unbound values are not modelled.
- Handlers.ImportArticlesOutcome, Handlers.ImportArticles, Worker.Respond,
  Worker.Handle: these follow the corrected import answer of the finding
  below, 201 with the count after a committed batch, where index.ts:131-139
  as written answers 500 `Failed to import articles` with the rows already
  inserted. The as-written handler is `Handlers.ImportArticlesOutcomeAsWritten`.
- Handlers.ImportedArticle: an element without `created_at` gets one
  `now` value per request. The source reads the clock once per element,
  so readings within one batch may differ.
- Handlers.LookupResponse, Handlers.ExportResponse: table order stands for
  the store's unspecified order of an unordered SELECT.
- Queries.NewestFirst: the order of rows with equal `created_at` is
  unspecified. The contract states only the permutation and the order.
  `created_at` values of different types are compared by a fixed type
  rank (null, numbers, text, other).
- Request parsing: URL parsing, query strings and percent-decoding of the
  `:slug` segment. The model takes the path and the raw segment.
  A body that does not parse is a `SyntaxError`.
- Serialisation: `JSON.stringify` is not modelled. Bodies are
  structured (`ArticleList`, `OneArticle`, `Added`, `Imported`). The
  default `text/plain` Content-Type of text responses is not modelled.
- The preflight answers 200, the `Response` default. No 204 status is
  set anywhere.
- The source has no `PUT` or `DELETE` routes and no `GET /articles/export`
  route, even though its CORS header advertises those methods. Such
  requests fall through to the routes that exist (proved: the fallback,
  and the slug lookup respectively).
- `admin.js` and `main.js`, the browser front ends, are not part of this
  model.
- Slugs: no concrete literal titles (such as `"Hello, World!"`) are
  evaluated. What each pass does between words is proved for all words
  instead: a separator run becomes one `-`, and a dropped character joins
  its neighbours. Idempotence, letters and digits, and when the slug is
  empty are proved for all titles.

## Findings

| source | as written | input that shows it | evidently intended | confidence | as-written member | corrected member |
|---|---|---|---|---|---|---|
| index.ts:131-139 | The import handler reads `success` from the value `batch` resolves to. That value is an array with one result per statement and has no `success` property, so the check is never truthy. | Any batch that commits, e.g. two valid articles, each result `{ success: true }`. The answer is 500 `Failed to import articles` although the rows were inserted. | 201 `Articles imported successfully` with the count when the batch commits. | not executed; relies on the store's documented result shape for batches | Handlers.ImportArticlesOutcomeAsWritten / Handlers.ImportAsWrittenLosesCommittedBatch | Handlers.ImportArticlesOutcome |
