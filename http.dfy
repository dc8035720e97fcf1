/**
 * Responses as the worker builds them, the cross-origin headers every one
 * of them carries, and the inputs the outside world supplies: the parsed
 * request body and the store's answers.
 */
module Http {
  import opened Js
  import opened Store

  /** What a handler's `catch` turns into a 500 whose body is `error.message`. */
  datatype Fault =
    | TypeError                       // a property read on null, or `slugify` of a non-string
    | SyntaxError(message: string)    // `request.json()` on a body that is not JSON
    | StorageError(message: string)   // the store threw

  /** A response body: literal text, `error.message`, or a `JSON.stringify` of a known shape. */
  datatype Body =
    | NoBody
    | Text(text: string)
    | ErrorMessage(fault: Fault)
    | ArticleList(rows: seq<Article>)
    | OneArticle(row: Article)
    | Added(message: string, slug: string)
    | Imported(message: string, count: nat)

  datatype Response = Response(status: nat, headers: map<string, string>, body: Body)

  const CORS_HEADERS: map<string, string> := map[
    "Access-Control-Allow-Origin" := "*",
    "Access-Control-Allow-Methods" := "GET, POST, PUT, DELETE, OPTIONS",
    "Access-Control-Allow-Headers" := "Content-Type, Authorization"
  ]

  const JSON_HEADERS: map<string, string> := CORS_HEADERS["Content-Type" := "application/json"]

  const EXPORT_HEADERS: map<string, string> :=
    JSON_HEADERS["Content-Disposition" := "attachment; filename=\"articles.json\""]

  /** The response carries the three cross-origin headers with their values. */
  predicate HasCors(r: Response) {
    forall k :: k in CORS_HEADERS ==> k in r.headers && r.headers[k] == CORS_HEADERS[k]
  }

  /** A plain-text answer with the given status under the cross-origin headers. */
  function TextResponse(status: nat, text: string): (r: Response)
    ensures HasCors(r) && r.status == status
  {
    Response(status, CORS_HEADERS, Text(text))
  }

  /** What each handler's `catch` answers: status 500, the error's message, the cross-origin headers. */
  function FaultResponse(f: Fault): (r: Response)
    ensures HasCors(r) && r.status == 500
  {
    Response(500, CORS_HEADERS, ErrorMessage(f))
  }

  /** A JSON body under the cross-origin headers plus `Content-Type: application/json`. */
  function JsonResponse(status: nat, body: Body): (r: Response)
    ensures HasCors(r) && r.status == status
    ensures "Content-Type" in r.headers && r.headers["Content-Type"] == "application/json"
  {
    Response(status, JSON_HEADERS, body)
  }

  /** The three header maps the worker uses all contain the cross-origin headers. */
  lemma HeaderMapsCarryCors(status: nat, body: Body)
    ensures HasCors(Response(status, CORS_HEADERS, body))
    ensures HasCors(Response(status, JSON_HEADERS, body))
    ensures HasCors(Response(status, EXPORT_HEADERS, body))
    ensures JSON_HEADERS["Content-Type"] == "application/json"
    ensures EXPORT_HEADERS["Content-Disposition"] == "attachment; filename=\"articles.json\""
  {
  }

  /** The result of `await request.json()`. */
  datatype Payload = Parsed(value: Value) | Unparsable(message: string)

  /** The store's answer to a write: `{ success: true }`, `{ success: false }`, or a thrown error. */
  datatype Commit = Committed | NotCommitted | Failed(message: string)
}
